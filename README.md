# chrome-extension-fast-storage, modelled in Dafny

The library keeps an in-memory mirror of a browser extension's local storage.
Reads are synchronous. One object, `ChromeStorageClass`, holds two fields:

- `storage`, the mirrored key/value object;
- `Observer`, the registered callbacks.

Construction asks the host for the full store, and the load callback then replaces the mirror outright. Construction also subscribes to the host's change notifications.

- `set` merges its argument over the mirror and then asks the host to persist it.
- `clear` empties the mirror and then asks the host to clear.
- `listen` appends an observer.
- The change `listener` writes each changed key's `newValue` into the mirror and then calls every observer with the mirror.
- `get` reads one key, with `?? null` as the default.

The model has three modules:

- `JsValues` (`js_values.dfy`) holds the JavaScript values the mirror tells apart. `undefined` and `null` are kept apart from all other values, so the `??` rule can be stated exactly. The module also defines what reading `entry.newValue` yields, including the TypeError it throws on `undefined` or `null`.
- `StorageSpec` (`storage_spec.dfy`) holds the specification functions and the lemmas about them:
  - `Lookup` reads one key;
  - `ApplyChanges` applies a change set, and `AppliedCount` says how much of it is applied before a throw;
  - `Notifications` gives the observer calls of one notification.
- `ChromeStorage` (`chrome_storage.dfy`) holds the class `ChromeStorageClass`, whose fields are `storage: map<string, Value>` and `observers: seq<ObserverId>`. Each method states its new state in terms of the old state and the functions above. The `Listener` method works like the source: two loops, one over the change entries (`WriteChanges`) and one over the observers (`NotifyObservers`), both within the listener's single try block.

The host is a parameter:

- the load result is the argument of `OnLoaded`;
- a synchronous throw from the host during `set` is `thrown: Option<HostError>`;
- during `clear`, host availability and a throw are two booleans;
- the observers that throw when called are a set of observer identities.

A ghost `log` records, in order:

- the host requests: get, subscribe, set and clear;
- the recovery hook calls (`appReload`);
- each observer call, as the observer and the mirror it was passed.

`LoadRaceScenario` is a client that relies on the contracts alone. It builds on the usage script, which only listens, calls `set({timer: 1})`, reads `get("timer")` and calls `getAll()`; steps 2 to 4 go beyond it:

1. Listen, `set({timer: 1})`, and `get("timer")` returns 1 at once.
2. A second `set` keeps the first key alongside its own.
3. The falsy `""`, once stored, is returned unchanged.
4. A load result that arrives afterwards wipes out the earlier writes, so `get("timer")` becomes `null`.

Where the code is more specific than its description, the model follows the code, with one exception: `get` is modelled in its corrected reading (see "## Findings" and "## Left out"). Otherwise:

- observers receive only the mirror, never the change set;
- the listener's error handling also covers an observer that throws, and the remaining observers are then skipped;
- `set` rejects only on a synchronous throw. The host callback always resolves the promise and never looks at `chrome.runtime.lastError`;
- there is no readiness state: the load result can overwrite earlier writes at any time;
- the listener ignores `areaName`, so changes from every storage area are merged into the mirror.

## Model

| member | source | states |
|---|---|---|
| `ChromeStorage.ChromeStorageClass.constructor` | src/index.ts:16-32 | the mirror starts empty with no observers; the host is asked for the full store and the change listener is subscribed, in that order |
| `ChromeStorage.ChromeStorageClass.OnLoaded` | src/index.ts:30 | the load result replaces the mirror exactly, discarding keys written earlier by `set`; observers and log untouched |
| `ChromeStorage.ChromeStorageClass.Listen` | src/index.ts:47-49 | the callback is appended at the end of the observer list; the old list is a prefix of the new one |
| `ChromeStorage.ChromeStorageClass.GetAll` | src/index.ts:55-57 | returns the current mirror |
| `ChromeStorage.ChromeStorageClass.Get` | src/index.ts:64-66 | the corrected reading: returns `null` exactly when the key is absent or stored as `undefined`/`null`, and the stored value unchanged in every other case (falsy values too); equals the as-written `storage[key] ?? null` on every stored key and every key no `Object.prototype` member has |
| `ChromeStorage.ChromeStorageClass.AppReload` | src/index.ts:107-109 | the recovery hook changes nothing but records one call |
| `ChromeStorage.ChromeStorageClass.Set` | src/index.ts:72-85 | every key of `data` maps to its value in `data`; every other key keeps its presence and value; the host set is requested; a synchronous throw runs the hook once and rejects with that error without undoing the merge; otherwise the promise waits for the host callback |
| `ChromeStorage.ChromeStorageClass.Clear` | src/index.ts:91-100 | the mirror is empty whatever the host does; no host call when storage is unavailable; a throwing host clear only runs the hook; no error reaches the caller |
| `ChromeStorage.ChromeStorageClass.Listener` | src/index.ts:116-127 | the new mirror is the change set applied to the old one up to the first entry whose `newValue` read throws. On such a throw the hook runs once and no observer is called. Otherwise every observer is called with the updated mirror, in registration order, until one throws. The observer list is unchanged, and `areaName` has no effect |
| `ChromeStorage.ChromeStorageClass.WriteChanges` | src/index.ts:118-120 | the mirror becomes the change set applied in order up to the first entry whose `newValue` read throws; it reports completion exactly when no entry throws |
| `ChromeStorage.ChromeStorageClass.NotifyObservers` | src/index.ts:122-126 | the log grows by exactly the observer calls of `Notifications`: each observer in registration order, passed the current mirror, until one throws and the hook runs |
| `JsValues.ReadNewValue` | src/index.ts:119 | reading `changes[key].newValue` throws exactly when the entry is `undefined` or `null` |
| `StorageSpec.LookupAsWrittenSeesPrototype` | src/index.ts:65 | as written, `get` of a never-stored key that names an `Object.prototype` member yields that member, not `null` |
| `StorageSpec.Lookup` | src/index.ts:64-66 | the intended reading: `null` if and only if the key is absent or nullish; otherwise exactly the stored value, so a stored falsy `0`, `false` or `""` is returned unchanged; never `undefined` |
| `StorageSpec.LookupAgreesWithAsWritten` | src/index.ts:65 | the intended and as-written readings agree on every stored key and on every key that no `Object.prototype` member has |
| `StorageSpec.AppliedCount` | src/index.ts:117-120 | every entry before the count has a readable `newValue`; the entry at the count, if any, is the first whose read throws |
| `StorageSpec.ApplyChanges` | src/index.ts:118-120 | applying changes never removes a key from the mirror |
| `StorageSpec.ApplyChangesKeepsOthers` | src/index.ts:118-120 | a key that no applied entry names keeps its presence and value: keys outside the change set, and keys after a throwing entry, are untouched |
| `StorageSpec.ApplyChangesWritesNewValue` | src/index.ts:117-120 | each entry applied before any throw leaves its key mapped to its `newValue`, so keys written before a failure stay written |
| `StorageSpec.DeletedKeyReadsNull` | src/index.ts:116-120 | a key deleted on the host (change with no `newValue`), once its entry is applied, even if a later entry throws, ends up present and mapped to `undefined`, and `get` of it returns `null` |
| `StorageSpec.Notifications` | src/index.ts:122 | with no observer throwing, there is exactly one call per registered observer, in registration order, each passed the same updated mirror |
| `StorageSpec.NotificationsStopAtThrow` | src/index.ts:122-126 | when observer `j` is the first to throw, observers `0..j` are called in order, the hook runs once after them, and no later observer is called |

## Left out

- ChromeStorage.ChromeStorageClass.Get: follows the corrected reading `StorageSpec.Lookup`, not `storage[key] ?? null` as written. For a key the mirror does not hold whose name is an `Object.prototype` member (`"toString"`, `"constructor"`, …), the source returns the inherited member and the model returns `null`. On every other key the two agree, and `Get` states this against `StorageSpec.LookupAsWritten`.

- The calls `chrome.storage.local.get/set/clear` and `chrome.storage.onChanged.addListener` are host APIs that cannot be seen. The model replaces each with a log entry, and each reply or throw with a parameter.
- Promise timing and `chrome.runtime.lastError` are not modelled. `Set` returns `AwaitingHost` for a promise that resolves only when the host callback fires. The source resolves in that callback without looking at `lastError`.
- The `getInstance` singleton is not modelled. The model constructs a single object instead.
- `appReload` does nothing today, so it appears only as a `Reload` entry in the log.
- Aliasing is not modelled. `getAll` returns a live reference, `listener` mutates that object in place, and observers receive it too. The model uses map values, so a caller or observer that mutates the returned object out of band is not captured.
- Observers that call back into the mirror during a notification are not modelled.
- A `set` argument that is not a plain object is not modelled. The model types `data` as a map; the source would spread a string into index keys, for example.
- Keys named `__proto__` are treated as ordinary keys. In the source, the listener's assignment `storage["__proto__"] = v` does not write a key: an object or `null` value replaces the mirror's prototype, and any other value, including the `undefined` of a deletion, is silently ignored.
- Numbers are integers: floating point, `NaN` and `-0` are not modelled.
- The console-logging usage script under test/ has no logic. `LoadRaceScenario` follows its steps.

## Findings

| source | as written | input that shows it | evidently intended | confidence | as-written member | corrected member |
|---|---|---|---|---|---|---|
| src/index.ts:65 | `this.storage[key] ?? null` reads the prototype chain of a plain object | `get("toString")` (or `"constructor"`, `"valueOf"`, …) on a mirror that never stored that key yields an inherited function, not `null` | `null` for every key the mirror does not hold | not executed; high | `StorageSpec.LookupAsWrittenSeesPrototype` | `StorageSpec.Lookup` |

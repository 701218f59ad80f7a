# use-persistent-state: the per-key store, modelled in Dafny

`use-persistent-state` is a React hook that keeps component state in a browser storage backend. Its
one piece of real logic is the process-wide store in `src/index.ts`. Every configured key owns one
live pair: the value and its stringified form. All subscribers of that key share the pair and one
setter. The store uses the pair to decide when storage is written and when components re-render.
It also runs a one-shot hand-over of server-rendered strings to the client (hydration).

The project has three modules:

- `Types` (`types.dfy`) holds the shapes of `src/types.ts`:
  - a value that may be `undefined` (`Maybe`);
  - a call that may throw (`Outcome`);
  - a JavaScript value (`Value`: a string, or any other value known by identity);
  - a converter: an uninterpreted `stringify` and an uninterpreted `parse` that may throw;
  - the setter's argument: a value, or a function of the current value.
- `StoreSpec` (`store_spec.dfy`) states every step of the store as a pure transition on a
  `State`. A `State` holds the `store` map, the storage entries, and the re-render calls made so far.
  - The write rule (`SetValueF`), the setter (`SetF`) and `setStringified` (`SetStringifiedF`).
  - Initialisation (`Initial`, `InitEntry`) and the subscriber set (`Subscribe`, `Unsubscribe`).
  - The client and server halves of hydration (`ClientRenderF`, `ServerRegisterF`, `RunEffectF`)
    and `ssr` (`SsrF`).
  - The lemmas state the promises of the source about these steps.
- `Store` (`store.dfy`) is the store as an object. The class `PersistentStorage` has fields for the
  `store` map, the storage backend, the log of re-render calls, and the shared hydration record.
  - The hydration record is a separate `HydrationRecord` object, because `ssr` hands out the live
    object and the client deletes from the one it is given.
  - Each method updates these fields in place, with the loops of the source. Each is proved to
    perform the `StoreSpec` transition of the same name, and to keep `Valid()`. `Valid()` says each
    callback set holds an element once, and a live value is undefined exactly when its string is.
  - Initialisation in the class (`ConfigureKey`, `Configure`) is the corrected `StoreSpec.Initial`
    of "## Findings", not the source's computation (`StoreSpec.InitialAsWritten`). The second half of
    `Valid()`, and the precondition of `SetValue`, hold for the corrected program only.
  - `Get` and `GetStringified` read the live pair.

React's hooks are explicit steps:

- `Mount`/`Unmount` are the layout effect and its cleanup.
- `RenderClient` and `RenderServer` are the two `register` variants.
- `RunHydrationEffect` is the effect that a hydrating render schedules; `RenderClient` returns it as a value.
- `UsePersistentState` is the hook: it calls the current `register`, then returns the live pair.

## Model

| member | source | states |
|---|---|---|
| `StoreSpec.Written` | src/index.ts:240-244 | after `setItem`/`removeItem`, the key's entry is the given string, or absent for undefined; every other key's entry is unchanged |
| `StoreSpec.WrittenSame` | src/index.ts:240-244 | writing the string storage already holds leaves storage equal to what it was |
| `StoreSpec.Subscribe` | src/index.ts:279-281 | mounting adds exactly that callback to the set (membership is the old set plus it); it keeps the set duplicate-free and keeps the existing order |
| `StoreSpec.Unsubscribe` | src/index.ts:282-284 | unmounting removes exactly that callback; the rest stay duplicate-free; the size drops by one when it was present; nothing changes when it was absent |
| `StoreSpec.UnsubscribeCutsOut` | src/index.ts:282-284 | in a duplicate-free set, deleting the callback at position `i` leaves the others in their order: the set before `i` followed by the set after it |
| `StoreSpec.Notifications` | src/index.ts:246-252 | the notification loop makes exactly `size` calls, the i-th one to the i-th callback of the set |
| `StoreSpec.NotifiedOnce` | src/index.ts:246-252 | each registered callback is called exactly once per effective write, and no unregistered one is called |
| `StoreSpec.InitialAsWritten` | src/index.ts:204-232 | the source's initial pair: its string is always the key's new storage entry; a kept stored string gives `(parse(s), s)`; a defined value beside an undefined string arises only from a stored string that parsed and was rejected |
| `StoreSpec.InitialKeepsStored` | src/index.ts:204-221 | a stored string that parses and passes `isValid` becomes the pair `(parse(s), s)`, and storage keeps `s` |
| `StoreSpec.InitialFallsBack` | src/index.ts:210-232 | an absent, unparseable or rejected string with no default gives an undefined pair and removes the key; with a default it gives `(default, stringify(default))` and stores that string |
| `StoreSpec.InitCoherent` | src/index.ts:199-232 | after initialisation, the key's storage entry equals the cached string |
| `StoreSpec.InitialAgrees` | src/index.ts:210-232 | the intended initial value is undefined exactly when its string is |
| `StoreSpec.InitialAsWrittenKeepsRejected` | src/index.ts:215-224 | as written, with no default, a parsed but rejected value stays live beside an undefined string |
| `StoreSpec.AsWrittenSetUndefinedIgnored` | src/index.ts:215-238 | in that as-written state, `set(undefined)` changes nothing, so the rejected value cannot be cleared |
| `StoreSpec.AsWrittenHydrationRestoresMixed` | src/index.ts:287-307 | in that as-written state, a client render of a key in the record schedules restoring `(v, undefined)`: the hydration effect then calls `setValue` with a defined value and an undefined string |
| `StoreSpec.SetValueF` | src/index.ts:234-254 | a write keeps the set of keys; afterwards the cached string is the one written; converter, callbacks and `register` are kept; other keys' pairs and storage entries are unchanged |
| `StoreSpec.SetValueNoop` | src/index.ts:234-235 | writing the cached string changes nothing: not the value (even a different one), not storage, and no callback is called |
| `StoreSpec.SetValueEffective` | src/index.ts:235-253 | writing a new string installs the new value, writes the string through (or removes the key for undefined), appends one call per registered callback, and leaves the key coherent |
| `StoreSpec.SetValueKeepsCoherent` | src/index.ts:234-254 | every write keeps every coherent key coherent |
| `StoreSpec.SetF` | src/index.ts:258-266 | the setter applies a function argument to the live value; afterwards `getStringified` is the stringified result (undefined for undefined); other keys are unchanged |
| `StoreSpec.SetSemantics` | src/index.ts:258-266 | an undefined result caches an undefined string and removes the key, and anything else caches `stringify(result)`; the value changes when the string does; value and string keep agreeing |
| `StoreSpec.SetStringifiedSemantics` | src/index.ts:318-325 | `setStringified(s)` throws exactly when `s` does not parse, and then changes nothing; otherwise it caches `s` verbatim; on a change the value is `parse(s)` (or undefined) and storage holds `s` |
| `StoreSpec.ServerRegisterOnce` | src/index.ts:313-317 | the server `register` records the key's cached string, leaves other record entries alone, and replaces itself with the no-op |
| `StoreSpec.ClientRenderConsumes` | src/index.ts:287-303 | a client render of a key in the record throws exactly when the strings differ and the server's string does not parse; otherwise it deletes the key from the record and schedules restoring the client pair; the server's pair becomes live iff the strings differed |
| `StoreSpec.ClientRenderOnce` | src/index.ts:287-310 | a consumed key is not consumed again: the next render changes nothing and schedules nothing |
| `StoreSpec.ClientRenderAgrees` | src/index.ts:295-301 | the hydration override keeps value and string agreeing |
| `StoreSpec.HydrationRestores` | src/index.ts:287-307 | the override breaks coherence when the strings differ, and the effect restores it. Afterwards the store holds the pair it had before the render, storage is unchanged, and the callbacks have been called only if an override happened |
| `StoreSpec.SetEach` | src/index.ts:332-343 | a run of `set` calls keeps the set of configured keys |
| `StoreSpec.AsValues` | src/index.ts:339-343 | each stringified value of `ssr` is passed on, untouched, as a string value |
| `StoreSpec.SetEachLast` | src/index.ts:332-343 | after a run of `set` calls, a key's cached string is the stringified last value given for it, and so is its storage entry when the key was coherent; a key not given is untouched, storage entry included |
| `StoreSpec.SetEachKeepsCoherent` | src/index.ts:332-343 | a run of writes keeps every coherent key coherent |
| `StoreSpec.LastForAsValues` | src/index.ts:339-343 | the last stringified value given for a key, taken as a value, is the last value the second loop passes for it |
| `StoreSpec.SsrResult` | src/index.ts:332-346 | after `ssr`, a key given a stringified value `s` caches `stringify(s)`, not `s` (the string is stringified again); a key given only a value caches the stringified value; a key given neither is untouched; coherent keys stay coherent |
| `Store.HydrationRecord.constructor` | src/index.ts:194 | the shared hydration record starts as an empty object |
| `Store.PersistentStorage.constructor` | src/index.ts:192-194 | the store starts empty, with an empty hydration record and the backend's existing contents |
| `Store.PersistentStorage.Get` | src/index.ts:348 | `get` returns the live value; under `Valid()` it is undefined exactly when the cached string is |
| `Store.PersistentStorage.GetStringified` | src/index.ts:350 | `getStringified` returns the cached string; under `Valid()` it is undefined exactly when the live value is |
| `Store.PersistentStorage.ConfigureKey` | src/index.ts:199-232 | one key's initialisation, by the corrected `StoreSpec.Initial` (see "## Findings"): its new item is `InitItem` of the stored string, with an empty callback set; its storage entry becomes `InitEntry`; other entries are unchanged |
| `Store.PersistentStorage.Configure` | src/index.ts:196-330 | every configured key is initialised from its own stored string, by the corrected `StoreSpec.Initial`; other keys' items and entries are unchanged; no callback is called |
| `Store.PersistentStorage.SetValue` | src/index.ts:234-254 | the loop over the callback set performs exactly `SetValueF` |
| `Store.PersistentStorage.Set` | src/index.ts:352-356 | `PersistentStorage.set` performs `SetF`, and afterwards `getStringified` returns the new string |
| `Store.PersistentStorage.SetStringified` | src/index.ts:358-362 | performs `SetStringifiedF`; a throwing parse leaves the state unchanged; otherwise `getStringified` returns `s` |
| `Store.PersistentStorage.Mount` | src/index.ts:279-281 | adds exactly the callback to its key's set; other keys, storage and the log are unchanged |
| `Store.PersistentStorage.Unmount` | src/index.ts:282-284 | removes exactly the callback from its key's set; other keys, storage and the log are unchanged |
| `Store.PersistentStorage.RenderServer` | src/index.ts:313-317 | performs `ServerRegisterF` on the shared record; no storage write and no callback call |
| `Store.PersistentStorage.RenderClient` | src/index.ts:274-311 | with no record, nothing happens; otherwise it performs `ClientRenderF` on the given record; there is no storage write and no callback call |
| `Store.PersistentStorage.RunHydrationEffect` | src/index.ts:305-307 | the effect performs `setValue(clientValue, clientStringifiedValue)` |
| `Store.PersistentStorage.UsePersistentState` | src/index.ts:366-372 | the hook calls the item's current `register` and returns the live pair. After the server `register` has run once, later calls leave the record unchanged |
| `Store.PersistentStorage.Ssr` | src/index.ts:332-346 | `set` once per value, then once per stringified value (passed as a value), in order; performs `SsrF` and returns the shared record |

## Left out

- React's machinery (`useState`, `useLayoutEffect`, `useEffect`, `useContext`, the context provider of
  src/PersistStorageHydrationProvider/index.ts). These become explicit steps. A re-render
  callback is an identity, and calling it appends to the log. Hook ordering and render scheduling
  are not modelled.
- `IS_CLIENT` (src/index.ts:197) is the `isClient` parameter of `Configure`.
- The default JSON converter: `stringify` and `parse` are arbitrary functions, and nothing assumes
  that `parse(stringify(v)) == v`. A `stringify` that throws is not modelled. A `parse` that throws
  is modelled (`Threw`).
- Storage selection (src/utils.ts, src/safeLocalStorage/index.ts, src/safeSessionStorage/index.ts),
  and the no-op fakeStorage (src/fakeStorage/index.ts), whose writes are ignored.
- Each key's storage backend is one map with one entry per key. Each key reads and writes only its
  own entry, so this is exact for the configured keys. It does not capture a key that is
  re-configured onto a different backend, which would read that backend's entry.
- A setter or effect obtained before its key is re-configured keeps acting on the old item. The
  model looks each key up afresh.
- The record passes from server to client by serialisation, which drops undefined entries. That
  step is not modelled: the client's record is whatever object the caller supplies.
- `ssr` entries whose value is a function would be applied by `set` as updaters. The model's
  `ssr` values are plain values. Entries are given as sequences in the objects' enumeration order.
- Unconfigured keys: the source crashes on them (the `!` lookups at src/index.ts:348-367). Here,
  that `key in items` is a precondition.
- `Store.PersistentStorage.SetValue` requires that the value is undefined exactly when the string
  is. In the corrected program all its callers (the setter, `setStringified`, the hydration effect)
  meet this. As written, the hydration effect can pass a defined value with an undefined string
  (`StoreSpec.AsWrittenHydrationRestoresMixed`); the class does not model that run, because it
  initialises by the corrected `StoreSpec.Initial`. `StoreSpec.SetValueF` has no such precondition.
- `storage.setItem` throwing (a full quota). In `setValue` (src/index.ts:243) the pair is already
  overwritten (src/index.ts:236-238) when it throws, so storage keeps its old entry and no callback
  is called. In initialisation (src/index.ts:230) it aborts the whole `PersistentStorage(config)`
  call, leaving that key without an item and the remaining keys unconfigured. The model has no
  failing backend write.
- The prototype chain in `key in hydrationCtx` (src/index.ts:288). A key such as `toString` is "in"
  every plain object, so the client would take the hydration branch with an inherited function as
  the server string, and `delete` (src/index.ts:303) would not remove it. The model's record is a
  map and holds only the keys put into it.
- Aliasing of the hook's result. The hook returns the live `persistStateTuple` array
  (src/index.ts:371), setter included, which `setValue` (src/index.ts:236-238) and the hydration
  override (src/index.ts:296-300) later change in place. `Store.PersistentStorage.UsePersistentState`
  returns the value and the string as of the call, and the setter is the `Set` method.
- `set` and `setStringified` return `PersistentStorage` for chaining. The model's methods return nothing.
- tsup.config.ts is build tooling; src/types.ts holds types only; both are used as shapes here.

## Findings

| source | as written | input that shows it | evidently intended | confidence | as-written member | corrected member |
|---|---|---|---|---|---|---|
| src/index.ts:215-224 | when `isValid` rejects the parsed value and there is no default, the catch branch removes the key but leaves the rejected value in `initialValue`: the pair becomes `(v, undefined)` | stored `"5"` parses to `5`, `isValid` returns false, `defaultValue` is undefined: `get` returns `5`, `getStringified` returns undefined, and `set(undefined)` is then ignored | fall back to the (undefined) default: the pair is `(undefined, undefined)`, as the doc-comment at src/index.ts:149 says | not executed; read from the code | `StoreSpec.InitialAsWrittenKeepsRejected` | `StoreSpec.InitialAgrees` |

The rest of the model uses the corrected `StoreSpec.Initial`. `StoreSpec.InitialAsWritten` is the
source's computation. `StoreSpec.AsWrittenSetUndefinedIgnored` shows that its pair cannot be cleared.

# object-history in Dafny

`createHistoryObject(value)` wraps a JavaScript object in a Proxy that records
property additions and removals in a per-object history and can undo them,
newest first. The history store (`HISTORY`) maps each tracked object to its log
of rows `{propertyKey, type, value}`. The `set` trap logs an "add" row when the
key is neither own nor inherited, then writes. The `deleteProperty` trap logs a
"remove" row, holding the captured descriptor, when the delete succeeded.
Reading `_undo` yields a function that pops rows from the tail of the log and
reverts each one: an "add" row by deleting the key, a "remove" row by
`Object.defineProperty` with the captured descriptor.

The model has four modules:

- `JsObjects` (js_objects.dfy): keys, values, property descriptors and the
  ordinary object operations the wrapper calls (`Reflect.has`, `Reflect.get`,
  `Reflect.set`, `Reflect.deleteProperty`, `delete`, `Object.defineProperty`),
  as pure functions. `Target` is a class whose own-property map changes in
  place. Its prototype chain is one fixed map and its extensibility is a fixed
  flag.
- `History` and `UndoLaws` (history.dfy): the rows, and the store as a class
  `HistoryStore` whose `logs` map is updated in place by `Push`
  (`pushHistoryRow`). `RedoHistory` is the undo loop. It keeps the source's
  `while (length > 0 && incr--)` with a JavaScript-number counter and is proved
  equal to `Replay`, a pure description of undoing `n` rows.
  `Iterations(count, length)` gives the most rows popped; a restore that
  throws stops the undo first (see `Replay`). `UndoLaws` holds
  lemmas about `Replay`: tail truncation, LIFO composition and frame.
- `Wrapper` (wrapper.dfy): the traps as pure functions `SetTrap` and
  `DeleteTrap`, and the class `HistoryObject`. Its methods `Get`, `Set`,
  `DeleteProperty` and `Undo` are the proxy's traps and the `_undo` function,
  and they change the target and the shared store in place.
  `CreateHistoryObject` is the construction guard.
- `WrapperLaws` (wrapper_laws.dfy): round trips and orderings over sequences
  of trap calls.

The model follows the code in these places:

- The undo count is a JavaScript number, and the loop runs at most
  `Iterations(count, length)` times, popping one row per pass, unless a
  restore throws first and ends the undo. `count = 0` and `NaN` run no pass. A
  non-negative integer `n` allows `min(n, length)` passes. `Infinity` and
  counts above the length are cut down to the length. Negative, `-Infinity`
  and fractional counts no larger than the length never reach exactly zero,
  so they allow a pass for every row of the log.
- Deleting a key that is only inherited passes the `Reflect.has` guard and
  succeeds without changing the object. It logs a "remove" row with an
  `undefined` descriptor. Undoing that row pops it and then throws a TypeError
  from `Object.defineProperty(target, k, null)`, stopping the undo
  (`InheritedDeleteUndoThrows`).
- Undo of a delete on a non-extensible object throws a TypeError: the key cannot
  be defined again (`RemoveUndoThrowsWhenNotExtensible`). The remove/undo round
  trip holds for configurable own keys of extensible objects
  (`RemoveUndoRoundTrip`).
- On an extensible object, writing a key that is only inherited from a
  writable data property creates an own property that shadows it. `Reflect.has` already sees the key, so
  nothing is logged and no undo removes the new property
  (`InheritedWriteIsNotUndone`).
- A write to a missing key of a non-extensible object fails, but its "add" row
  is still logged, once per attempt (`RefusedWritesAreLogged`).
- Reading `_undo` yields the undo function even when the object has an own
  `_undo` property. The exception is an own `_undo` that is non-configurable
  and either non-writable data or an accessor without a getter. The Proxy's
  `get` invariant then rejects the fresh closure with a TypeError.

## Model

| member | source | states |
|---|---|---|
| `JsObjects.Target.constructor` | index.js:36-41 | the tracked object starts with the given own properties, prototype properties and extensibility |
| `JsObjects.HasProperty` | index.js:51 | `Reflect.has`; a key it denies reads as `undefined` |
| `JsObjects.ReadAfterWrite` | index.js:47-55 | a write to a writable own data key, or one that creates a missing key on an extensible object, succeeds, and `Reflect.get` of that key then yields the written value |
| `JsObjects.OrdinarySet` | index.js:55 | `Reflect.set` changes at most key `k`. A writable own data property gets the new value with unchanged attributes. A missing key becomes a fresh writable, enumerable, configurable data property exactly when the object is extensible. A failed write changes nothing |
| `JsObjects.OrdinaryDelete` | index.js:63 | the delete succeeds exactly when the key is not own or is configurable; on success the key is gone, on failure nothing changes |
| `JsObjects.DefineOwnProperty` | index.js:30 | `Object.defineProperty` either installs the descriptor or throws and changes nothing. A new key needs an extensible object. A configurable key always accepts |
| `JsObjects.DeleteThenDefineRestores` | index.js:57-68 | deleting a configurable own key and defining it with its old descriptor gives back the same own-property map (extensible object) |
| `History.Commit` | index.js:2-13 | replacing one target's log leaves every other target's log unchanged and creates no entry for a log that stays empty |
| `History.HistoryStore.constructor` | index.js:2 | the store starts with no logs |
| `History.HistoryStore.Push` | index.js:4-13 | `pushHistoryRow` appends exactly one row at the tail of the target's log, creating a one-row log when there was none; other targets' logs are unchanged |
| `History.Replay` | index.js:23-32 | undoing `n` rows only cuts the log's tail, leaving a prefix; when `n > 0` and the log is not empty at least one row is removed |
| `History.Revert` | index.js:24-32 | reverting an "add" row never throws and removes the key unless it is a non-configurable own key, which stays. Reverting a "remove" row succeeds only with a captured descriptor, and then the key holds exactly that descriptor. With a captured descriptor it succeeds whenever the key is configurable, or is absent and the object is extensible. A throw leaves the object unchanged |
| `History.Truthy` | index.js:23 | the loop test on `incr` is false exactly for 0 and NaN |
| `History.Decrement` | index.js:23 | `incr--` takes a positive whole number to the whole number one below it. A negative or fractional value never becomes a whole number, so never 0. Infinities and NaN stay as they are |
| `History.InitialCounter` | index.js:15-21 | the first `incr` never exceeds the log length and is never `Infinity`. The default is 1, or 0 on an empty log. `Infinity` and counts above the length become the length. Any other count is kept as given |
| `History.Iterations` | index.js:15-23 | the undo loop makes at most as many passes as the log has rows, each popping one row unless a restore throws first. The default allows `min(1, length)` passes. A non-negative integer `n` allows `min(n, length)`. `Infinity`, `-Infinity` and negative or fractional counts allow one per row of the log. `NaN` allows none |
| `History.RemainingStep` | index.js:23 | each pass of the loop over a non-empty log with a truthy counter leaves exactly one pass fewer |
| `History.RedoHistory` | index.js:15-34 | undo leaves the target and the log exactly as `Replay` allowing at most `Iterations(count, length)` rows describes; it throws exactly when reverting a row throws; other targets' logs are unchanged |
| `UndoLaws.UndoEmptyLogIsNoOp` | index.js:17-20 | undo on an empty log changes nothing and completes normally |
| `UndoLaws.ReplayTruncatesTail` | index.js:23-24 | undo only removes rows from the tail: the remaining log is a prefix of the old one. A normal finish removes exactly `min(n, length)` rows. A throw removes at least one row and at most `min(n, length)` |
| `UndoLaws.ReplaySplit` | index.js:23-33 | LIFO: undoing `m + n` rows equals undoing `m` rows, then `n` more unless the first part threw |
| `UndoLaws.ReplayLeavesOtherKeys` | index.js:25-32 | a key that no row of the log names keeps its own descriptor (or stays absent) through any undo |
| `UndoLaws.UndoOneRow` | index.js:23-32 | undoing one row reverts exactly the newest row and keeps every earlier row |
| `Wrapper.SetTrap` | index.js:50-56 | the write is exactly `Reflect.set`. The log gains one row, `AddRow(k, v)` at the tail, exactly when the key was neither own nor inherited; earlier rows are kept. On a non-extensible object that row is logged although the write fails |
| `Wrapper.DeleteTrap` | index.js:57-69 | an absent key returns false and changes neither object nor log. Otherwise the result and the new object are `Reflect.deleteProperty`'s. A success appends `RemoveRow(k, captured descriptor)`. A failure, such as on a non-configurable key, changes neither |
| `Wrapper.HistoryObject.constructor` | index.js:41 | the proxy is bound to its target and to the shared store |
| `Wrapper.HistoryObject.Get` | index.js:42-48 | reading `_undo` yields the undo function, also over an own `_undo` property, except one the Proxy's `get` invariant pins, where it throws a TypeError; any other key is the target's own read; nothing is modified |
| `Wrapper.HistoryObject.Set` | index.js:50-56 | the target and its log end as `SetTrap` describes; other targets' logs are unchanged |
| `Wrapper.HistoryObject.DeleteProperty` | index.js:57-69 | the target and its log end as `DeleteTrap` describes; other targets' logs are unchanged |
| `Wrapper.HistoryObject.Undo` | index.js:45 | calling the `_undo` function has exactly the effect of `redoHistory` on the wrapper's target |
| `Wrapper.CreateHistoryObject` | index.js:36-41 | a wrapper is produced exactly for non-null objects and is bound to that object; `null`, primitives and functions yield a TypeError |
| `WrapperLaws.OverwritesAreNotLogged` | index.js:50-56 | any number of writes to a present plain data key leaves the log unchanged and touches no other key |
| `WrapperLaws.RefusedWritesAreLogged` | index.js:50-56 | on a non-extensible object every write to a missing key fails, leaves the object unchanged and logs one "add" row for that key |
| `WrapperLaws.AddUndoRoundTrip` | index.js:50-56 | after writing a missing key, with any later overwrites, one undo restores the own-property map exactly. When the first write succeeded, the log is restored too |
| `WrapperLaws.OverwriteSurvivesUndo` | index.js:50-56 | writing a present key is not logged, so undoing rows about other keys keeps the new value |
| `WrapperLaws.InheritedWriteIsNotUndone` | index.js:50-56 | on an extensible object, writing a key inherited from a writable data property creates a fresh own property without logging a row, and no undo of rows about other keys removes it |
| `WrapperLaws.RemoveUndoRoundTrip` | index.js:57-68 | deleting a configurable own key of an extensible object and undoing once restores the exact descriptor and the log |
| `WrapperLaws.RemoveUndoThrowsWhenNotExtensible` | index.js:30 | on a non-extensible object the same undo pops the row and throws a TypeError, and the key stays deleted |
| `WrapperLaws.InheritedDeleteUndoThrows` | index.js:58-65 | deleting an inherited-only key succeeds without change and logs a row with no descriptor; any undo reaching that row pops it and throws |
| `WrapperLaws.UndoTwoOfThree` | index.js:23-32 | after add(a), add(b), remove(c), undoing two rows restores c, removes b and keeps a, leaving the log as after add(a) |
| `WrapperLaws.TwoWrappersShareOneLog` | index.js:2-13 | two wrappers over one object share its log: a write through one, undone through the other, leaves the object and its log as they were |

## Left out

- The Proxy and Reflect machinery as such: the traps are explicit methods, and the operations the Proxy forwards without a trap (key enumeration, `has`, `defineProperty`, `getOwnPropertyDescriptor` on the wrapper) are not modelled.
- The weak lifetime of `HISTORY` (a WeakMap): the store is an ordinary map keyed by object identity, and garbage collection is not expressible.
- Getters and setters are opaque function ids that are never run. A read of an accessor with a getter yields `CallsGetter`; one without a getter reads as `undefined`. A write through a setter succeeds without running it.
- Only ordinary objects are modelled. Exotic targets such as arrays are not: an index write to an array also changes its `length`, and undo does not restore that.
- The prototype chain is one fixed map of inherited descriptors. The receiver of `Reflect.set` is always the target. Extensibility is fixed for the object's lifetime.
- Strict-mode throws on failed writes and deletes: failures are boolean results. The `delete` inside undo follows sloppy mode, since the module does not opt into strict mode.
- Numbers are exact reals, so -0 cannot be represented; every other value compares with `==` exactly as SameValue compares it.
- Non-number undo counts (`null`, strings, booleans, objects) are not modelled. An omitted count is the default 1.
- A "remove" row always holds a captured descriptor or `undefined`, since only the delete trap creates such rows. A row whose payload is another value is not representable.
- The single module-level `HISTORY` map is a `HistoryStore` object passed to `CreateHistoryObject`. Wrappers share logs only when every caller passes the same store, as the module's one map guarantees in the source.
- The `value` of an "add" row is kept in `AddRow` but has no effect on undo.

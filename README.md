# hooxigene store core, modelled in Dafny

hooxigene is a thin layer over React's reducer hook and context. An application
describes its state as named reducer definitions (`name`, `initialState`,
`handlers`). `reducersBuilder` composes them into one store value,
`{state: {name: slice}, dispatch: {name: dispatcher}}`. `getState` reads a
dot-separated path out of the store's state. `getDispatch` hands out the dispatch
table or one dispatcher.

This project models that logic:

- `values.dfy` (module `Values`) models the JavaScript values the store holds. It
  covers truthiness (`!x`), lodash's `isPlainObject`, the conversion of a value to a
  property key (`obj[v]` uses `String(v)`), property reads (including the TypeError
  raised by reading a property of `undefined` or `null`) and the object spread `{...v}`.
- `reducers.dfy` (module `Reducers`) models `src/reducersBuilder.js`:
  - validation of a definition;
  - the transition `reducer(state, action)`;
  - the single-entry record each definition contributes, built from its cell's current value;
  - flattening of the nested argument list;
  - in-order validation of every definition;
  - the left-to-right shallow-merge fold.
  The `useReducer` cells are the class `Cells`. It keeps one cell per validated
  definition and the combined record a render rebuilds from them. Its `Dispatch`
  method moves only the cell of the last definition carrying the name, and replaces
  one slice of that record. The cells of shadowed duplicates never change.
- `store.dfy` (module `Store`) models `src/Store.js`. The store is an explicit
  `StoreValue` parameter, not read from React context. `GetState` is a loop over the
  path segments, proved against the recursive walk `Walk`. `GetDispatch` is a
  function. The file ends with an end-to-end counter scenario: compose, mount,
  dispatch `inc`, then read `"counter.count"`.

Where a reader might expect otherwise, the model follows the code:

- A definition is rejected when `initialState` is falsy. That includes `0`, `false`,
  `""` and `null`, not only a missing value.
- `getState` returns the whole state for any falsy key, `""` included, not only an
  omitted one.
- `getDispatch` returns the whole table for any falsy key.
- A truthy key that is not a string makes `getState` raise, because `key.split` is
  not a function. This holds only when the state is a plain object.

## Model

| member | source | states |
|---|---|---|
| `Values.Truthy` | src/reducersBuilder.js:6-10 | `!!x` for every value: undefined, null, false, 0 and `""` are falsy, every array and object is truthy. The same test decides `!key` at src/Store.js:34 and `key ?` at src/Store.js:53. Its consequences are stated by `Reducers.Validate`, `Store.StateAtWithoutKey` and `Store.GetDispatch`. |
| `Values.ToKey` | src/reducersBuilder.js:14-26 | `String(v)`, the property key that `handlers[action.type]` and the computed keys `[name]` use. Specified by `Values.ArrayIndexOfDecimal` and `Values.ArrayElement`, which show that the key of an index reads back as that index. |
| `Values.GetProperty` | src/Store.js:45 | The read `_state[k]`. Specified by `Values.GetPropertyFails` (fails exactly on undefined and null, reads an object's own field or undefined) and `Values.ArrayElement`. |
| `Reducers.Validate` | src/reducersBuilder.js:5-11 | Each error occurs exactly when its check is the first to fail, in the order name, initialState, handlers. Any falsy value fails a check. A valid definition yields a reducer whose key is `String(name)` and that keeps the initial state and the handlers. |
| `Reducers.ValidateShortCircuits` | src/reducersBuilder.js:6-9 | With a falsy name, the other attributes do not change the outcome. With a truthy name and a falsy initial state, the outcome is the initialState error, whatever the handlers. |
| `Reducers.Current` | src/reducersBuilder.js:13 | The `state = initialState` default: an undefined incoming state becomes the initial state, and any other state is kept. |
| `Reducers.Transition` | src/reducersBuilder.js:13-18 | With no handler for the action's type, the result is the current state unchanged. A current state that is not an object or an array is never changed, because the update library hands out no draft for it. Otherwise the result is exactly that handler's effect on the current state with the payload. |
| `Reducers.Flatten` | src/reducersBuilder.js:32 | `flattenDeep` of the argument list. Specified by `Reducers.FlattenAppend`, `Reducers.FlattenGroup` and `Reducers.FlattenLeaves`: the order of the definitions is kept and nesting is removed. |
| `Reducers.FlattenAppend` | src/reducersBuilder.js:32 | Flattening distributes over concatenation, so it preserves input order. |
| `Reducers.FlattenGroup` | src/reducersBuilder.js:32 | A nested group contributes its own flattening at its position. |
| `Reducers.FlattenLeaves` | src/reducersBuilder.js:32 | An already flat list of definitions flattens to itself. |
| `Reducers.ValidateAll` | src/reducersBuilder.js:32-35 | On success there is one reducer per definition, each the validation of the definition at the same position. Validation fails exactly when some definition is invalid, and the error is that of the first invalid one. |
| `Reducers.Entry` | src/reducersBuilder.js:20-28 | The record a definition contributes has one state key and one dispatch key, both the reducer's name. Under that name it holds the cell's current slice and the dispatcher bound to that reducer. |
| `Reducers.Merge` | src/reducersBuilder.js:37-46 | The shallow merge has the union of the keys. The later record's entry wins on a shared name. Other names keep the accumulated entry. |
| `Reducers.Fold` | src/reducersBuilder.js:36-48 | The `.reduce` that merges every reducer's record left to right. Specified by `Reducers.FoldKeys`, `Reducers.FoldLastWins`, `Reducers.FoldUntouched`, `Reducers.FoldBindsOwnNames`, `Reducers.FoldAccUpdate` and `Reducers.FoldReplaceLast`. |
| `Reducers.FoldKeys` | src/reducersBuilder.js:36-48 | The fold's state and dispatch keys are the starting keys plus every reducer's name. |
| `Reducers.FoldLastWins` | src/reducersBuilder.js:36-48 | For each name, both the slice and the dispatcher come from the last reducer carrying that name, and the slice is that reducer's cell value. This is the left-to-right overwrite rule. |
| `Reducers.FoldUntouched` | src/reducersBuilder.js:36-48 | A name that no reducer carries keeps its starting entry, or stays absent. |
| `Reducers.FoldBindsOwnNames` | src/reducersBuilder.js:36-48 | Every dispatcher in the folded table is bound to the reducer of its own name. |
| `Reducers.LastExists` | src/reducersBuilder.js:36-48 | Every name that some reducer carries has a last carrier, so its entry in the record is well defined. |
| `Reducers.FoldAccUpdate` | src/reducersBuilder.js:36-48 | Changing the starting slice of a name that no later reducer carries changes exactly that slice of the fold's result. |
| `Reducers.FoldReplaceLast` | src/reducersBuilder.js:20-48 | A new value in the cell of a name's last carrier changes exactly that name's slice of the rebuilt record. Every other slice and the dispatch table stay as they were. |
| `Reducers.Compose` | src/reducersBuilder.js:31-48 | `reducersBuilder(...input)`: flatten, validate in order, then fold. Specified by `Reducers.ComposeFails`, `Reducers.ComposeNames`, `Reducers.ComposeLastWins` and `Reducers.ComposeDistinct`. |
| `Reducers.ComposeFails` | src/reducersBuilder.js:31-35 | The composition fails exactly when some flattened definition is invalid, and then with the first invalid one's error. |
| `Reducers.ComposeNames` | src/reducersBuilder.js:31-48 | On success, the state keys are exactly the names of the flattened definitions. The dispatch table has the same keys, and each dispatcher is bound to its own name. |
| `Reducers.ComposeLastWins` | src/reducersBuilder.js:32-45 | With duplicate names, both the state and the dispatcher of a name come from the last definition in flattened order. |
| `Reducers.ComposeDistinct` | src/reducersBuilder.js:20-48 | With distinct names and before any dispatch, the combined state has one entry per definition. Each name maps to its own definition's initial state. |
| `Reducers.Cells.constructor` | src/reducersBuilder.js:20 | Each reducer gets one cell holding its initial state. The record equals the one the composition builds. |
| `Reducers.Cells.Snapshot` | src/reducersBuilder.js:21-48 | The record the store publishes is the one a render rebuilds: the left-to-right fold of every reducer's entry, each built from its own cell's current value. |
| `Reducers.Cells.Dispatch` | src/reducersBuilder.js:13-26 | Only the cell of the last reducer carrying `name` moves, to the transition of its value. Every other cell, the cells of shadowed duplicates included, keeps its value. In the rebuilt record slice `name` takes that value. Every other slice and the dispatch table are unchanged. An action with no handler on a defined slice changes nothing. |
| `Values.ArrayIndexOfDecimal` | src/Store.js:45 | The decimal numeral of every index reads back as that index. |
| `Values.GetPropertyFails` | src/Store.js:45 | Reading a property fails exactly on undefined and null. On an object, a read yields the field or undefined. |
| `Values.ArrayElement` | src/Store.js:45 | On an array, the key `String(i)` yields element `i`. |
| `Values.ShallowCopy` | src/Store.js:40 | The object spread of a plain object is equal to that object. |
| `Store.Split` | src/Store.js:42-43 | `key.split('.')` always yields at least one piece, and no piece contains a dot. |
| `Store.JoinSplit` | src/Store.js:42-43 | Joining the pieces of a split with dots gives back the key. |
| `Store.SplitJoin` | src/Store.js:42-43 | Splitting a dot-join of dot-free pieces gives back the pieces. |
| `Store.Walk` | src/Store.js:42-46 | The `forEach` that reads one property per segment. A failed walk names one of the path's segments as the property it could not read. `Store.WalkAppend`, `Store.WalkFailsAfterMissing` and `Store.WalkLastMissing` state the rest. |
| `Store.WalkAppend` | src/Store.js:44-46 | Walking a concatenated path is walking the first part, then the second from where the first ended. An error in the first part stops the walk. |
| `Store.WalkFailsAfterMissing` | src/Store.js:44-45 | When a segment other than the last lands on undefined, the walk raises on the following segment. |
| `Store.WalkLastMissing` | src/Store.js:44-45 | When only the last segment is missing from an object, the result is undefined, not an error. |
| `Store.WalkShallowCopy` | src/Store.js:40-45 | Walking the shallow copy yields the same result as walking the original state. |
| `Store.StateAt` | src/Store.js:31-49 | What `getState(key)` returns. It raises only for a truthy key on a plain-object state. `Store.StateAtWithoutKey`, `Store.StateAtNotPlainObject`, `Store.StateAtPath` and `Store.StateAtTwoLevels` state its results. |
| `Store.GetState` | src/Store.js:31-49 | The loop over the segments returns exactly `StateAt`. Its invariant is that walking the rest of the path from the current value gives the final answer. |
| `Store.StateAtWithoutKey` | src/Store.js:34-35 | A falsy key, absent or `""`, returns the entire state. |
| `Store.StateAtNotPlainObject` | src/Store.js:37-38 | A state that is not a plain object is returned whatever the key. |
| `Store.StateAtPath` | src/Store.js:40-48 | On a plain-object state, the key joining dot-free segments reads the iterated property lookup along those segments, one step per segment. |
| `Store.StateAtTwoLevels` | src/Store.js:42-48 | `getState("a.b")` is `state.a.b`. A missing `a` raises on reading `b`. A missing `b` under an object `a` reads undefined. |
| `Store.GetDispatch` | src/Store.js:51-54 | A falsy key returns the whole table, and only a falsy key does. A truthy key returns `dispatch[String(key)]`, which is absent exactly when that name is not in the table. |
| `Store.ComposedAccess` | src/Store.js:51-54 | On a composed store, a dot-free name's dispatcher comes from the last definition carrying it, and so does its state: that definition's initial state. |
| `Store.CounterCountReads` | src/Store.js:42-48 | A state whose `counter` slice is `{count: 1}` reads 1 at `"counter.count"`. |
| `Store.CounterScenario` | src/Store.js:31-49 | Compose a counter definition, mount it, dispatch `inc`, then read `getState("counter.count")`: the result is 1. |

## Left out

- React rendering is not part of this model: `StoreProvider`, `StoreContext.Provider`, `StateViewer`, PropTypes and `defaultProps` (src/Store.js:1-26) are UI plumbing.
- `getStore` (src/Store.js:28-29) reads React context. The model passes the store as an explicit `StoreValue` argument instead. Calling an accessor with no provider, where the context value is `null`, is not modelled.
- immer's `produce` is a foreign library and is not modelled. A handler is a pure function from the current state and the payload to the next state, standing in for its draft mutations.
- React's `useReducer` hook identity and render rules are not modelled. The cells are a ghost sequence in the class `Cells`, one per validated definition, and a render is the fold over them. The cells of earlier duplicates exist but no dispatcher reaches them.
- Composing an empty argument list gives `{}` in the source, with no `state` or `dispatch` field. The model gives a record with empty maps instead, because the value model has no missing fields.
- `Reducers.Transition`: a handler stands for the net effect of its mutations on the draft. The source discards whatever the handler returns. A handler that returns a new state instead of mutating the draft changes nothing in the source. Its draft effect is the identity, and the model cannot check that a given function was written that way. On a current state that is not an object or an array, the model keeps the state, as the source does.
- `Nested.Leaf` always holds a definition object. A `null` or `undefined` entry in the argument list is not modelled. In the source such an entry raises a TypeError when `reducerBuilder` destructures it, and this is not one of the configuration errors.
- Key order of the combined state and of the dispatch table is not modelled, because maps are unordered. In the source, keys follow the order of first insertion in the flattened list, except that array-index names such as `"1"` come first, in ascending numeric order.
- Function values inside the state tree are not modelled. A `Value` holds no functions, and handlers live only in a definition's handler table.
- Strings are sequences of characters, not of UTF-16 code units. `length` and indexes of a string read by `getState` therefore differ from JavaScript for characters outside the Basic Multilingual Plane. For example, JavaScript gives 2 for the `length` of an emoji, and the model gives 1.
- Numbers are integers. NaN, `-0`, fractions and the float-to-string conversion are not modelled.
- A definition's `handlers` is either a falsy value (`None`) or a table of functions. A truthy value that is not such a table is not modelled, and neither is a table entry that is not a function.
- Properties inherited from `Object.prototype`, such as `toString` or `constructor`, are not modelled on handler tables, dispatch tables or state objects. Only own fields, array and string elements, and `length` are read.
- The upper bound of JavaScript array indices (2^32 - 2) is not enforced. Sequences are unbounded.
- `Reducers.Cells.Dispatch` requires `name` to be in the dispatch table. In the source, `dispatch[name]` is undefined for any other name, and calling it raises a TypeError at the caller; that error is not modelled.
- webpack.config.js is bundler configuration with no runtime logic, so it is not part of this model.

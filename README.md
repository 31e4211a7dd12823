# StateManager form-state synchroniser, in Dafny

`StateManager` keeps a plain state object in step with the form controls (`input`, `select`,
`textarea`) found inside a wrapper element. This project models it:

- At construction it extracts every control into the state, in document order, without
  notifying.
- On every `input` and `change` event it re-extracts the control that fired. When its
  comparison of the snapshot taken before the update with the state after it sees a change, it
  calls `onStateUpdate(previousState, state)`. That comparison misses the check of a box whose
  list is already stored (see below). If a `watchers` list is given, the call happens only when
  one of the listed fields differs.
- `setState(partial)` merges a partial state over the current one and writes the result back
  onto every control.

How a control is extracted depends on its kind:

- A checkbox whose name ends in `[]` contributes one entry to a list-valued field. Checking it
  appends its value if absent. Unchecking it filters its value out.
- A plain checkbox stores its `checked` flag.
- A radio stores its value when checked and `""` when not.
- Anything else stores its `value` string.

The model has three modules:

- `FormValues` (`values.dfy`): the state's values (strings, booleans and lists of strings),
  plus the JavaScript coercions the code relies on: truthiness, `x || []`, and
  `Array.prototype.join`. It also holds the list operations `AddUnique` (includes-then-push)
  and `Without` (filter).
- `Sync` (`sync.dfy`): the pure rules.
  - Extraction of one control (`Extract`) and of a sequence of controls (`ExtractAll`).
  - The snapshot `{ ...state }` taken before an update, as the later comparison sees it
    (`Snapshot`).
  - The watch gate and the notification decision (`Fires`).
  - The merge of `setState`.
  - Writing a stored value back onto a control (`Apply`).
  - The properties relating these rules.
- `Manager` (`manager.dfy`): the synchroniser itself.
  - A `Control` class stands for a DOM element whose `checked` and `value` are written in place.
  - A `StateManager` class holds the state map. Its methods update the map and the controls.
  - The callback's invocations are recorded in a `notices` sequence. Each method is proved
    against the functions of `Sync`.

The snapshot `{ ...this.state }` is a shallow copy, and a checked list entry grows with an
in-place `push`. The snapshot therefore shares that array, so the comparison afterwards sees
the same list on both sides. `Snapshot` reproduces this, and so does the class's `UpdateState`.
The consequence is listed under Findings.

## Model

| member | source | states |
|---|---|---|
| FormValues.AddUnique | StateManager.js:36-38 | The value is in the result, which holds exactly the old elements and the value, and keeps every old element at its position. The list is unchanged when the value was already there, grows by at most one, and stays free of duplicates. |
| FormValues.Without | StateManager.js:40 | An element is in the filtered list exactly when it was in the list and differs from the removed value. |
| FormValues.WithoutCounts | StateManager.js:40 | Filtering drops every occurrence of the value and keeps every other element as many times as before. |
| FormValues.WithoutKeepsDistinct | StateManager.js:40 | Filtering a list without duplicates leaves a list without duplicates. |
| FormValues.WithoutConcat | StateManager.js:40 | Filtering distributes over concatenation, so the order of what remains is kept. |
| FormValues.WithoutAbsent | StateManager.js:40 | Filtering out a value that is not present leaves the list unchanged. |
| FormValues.JoinSnoc | StateManager.js:91 | `Join`, the `Array.prototype.join` that `ToJsString` applies when a list is assigned to `value`, puts the separator between consecutive elements: one more element appends the separator and that element. |
| Sync.EndsWithMeansSuffix | StateManager.js:33 | `endsWith` holds exactly when the name is some prefix followed by the suffix. |
| Sync.Extract | StateManager.js:30-48 | Extraction stores `Extracted` (the per-kind value, with `KindOf` as the dispatch of :33/:42/:44) under the control's name. It adds the control's name to the keys, removes none, and leaves every other field as it was. |
| Sync.ExtractByKind | StateManager.js:33-48 | What `Extracted` stores, per kind. Only a multi-checkbox stores a list. That list holds the control's value exactly when the box is checked and agrees with the old list on every other value. A plain checkbox stores `checked`; a radio stores its value or `""`; any other control stores its value. None of these depends on what was stored before. |
| Sync.ExtractKeepsListsDistinct | StateManager.js:33-41 | If every list in the state is free of duplicates before an extraction, it still is afterwards. |
| Sync.CheckAppends | StateManager.js:33-38 | Checking appends the value at the end when it is absent and otherwise keeps the list. A missing entry starts as the empty list (`ListOr`, the empty-array fallback of :34). |
| Sync.UncheckRemoves | StateManager.js:34-40 | Unchecking stores the filtered list, which removes every occurrence of the value and keeps every other element's count. An absent value leaves the list as it was. |
| Sync.ExtractIdempotent | StateManager.js:66-67 | Extracting the same control twice changes nothing the second time, so the `input` and `change` events of one edit act as one. |
| Sync.ExtractAllFrame | StateManager.js:24-26 | `ExtractAll`, the loop of `#initializeState`, adds the controls' names to the keys, removes none, and keeps every field none of them is named after. |
| Sync.InitialState | StateManager.js:22-27 | After initialisation from `{}`, every list in the state is free of duplicates. |
| Sync.InitialListsFromChecked | StateManager.js:22-41 | After initialisation from `{}`, every value in a stored list is the value of a checked box of that field among the processed controls. |
| Sync.ChecksAccumulate | StateManager.js:33-38 | Checking boxes of one list field, with distinct values not yet stored, appends those values in the order of the checks. |
| Sync.StaysList | StateManager.js:34 | Once a list is stored under a multi-checkbox field, extracting that field's boxes keeps a list there. |
| Sync.ChecksAreSilent | StateManager.js:31-50 | In such a run of checks of a field whose list is stored, no check notifies. |
| Sync.LastRadioWins | StateManager.js:44-45 | When a radio group is extracted in order, its last member decides the stored value. |
| Sync.RadioGroupOrder | StateManager.js:44-45 | In a concrete group where only the middle radio is checked, initialisation stores `""`. The checked radio's own event then stores its value. |
| Sync.Snapshot | StateManager.js:31-37 | The snapshot has the old state's keys and agrees with it on every other field. It is either the old state itself or, when `push` grew a shared array, the new state. |
| Sync.SomeFieldChanged | StateManager.js:59 | `some(...)` holds exactly when some listed field is looked up differently in the two states. |
| Sync.WatchGate | StateManager.js:59 | `WatchedFieldChanged`, the ternary of :59: with no watch list the gate always passes. With one, it passes exactly when some watched field differs; a field present on one side only counts as a difference. |
| Sync.FiresOnlyOnRealChange | StateManager.js:50-52 | `Fires` is the conjunction of :50-51. A notification needs `callUpdate` and a callback. It only happens when the snapshot equals the old state and the state really changed. |
| Sync.NoChangeIsSilent | StateManager.js:50 | An update that leaves the state unchanged never notifies. |
| Sync.UnwatchedChangeIsSilent | StateManager.js:59 | With a watch list, an update of an unlisted field never notifies. |
| Sync.WatchedChangeFires | StateManager.js:50-59 | With the field watched (or no watch list), a change notifies, except for a check against an already stored list. |
| Sync.SharedListCheckIsSilent | StateManager.js:31-50 | As written: checking a multi-checkbox whose list is already stored never notifies. |
| Sync.MissedNotification | StateManager.js:31-50 | Concrete case: with `["a"]` stored under `tags[]`, checking the box with value "b" stores `["a","b"]`, yet no callback fires. |
| Sync.CopiedSnapshotReportsEveryChange | StateManager.js:31-52 | Corrected: with a real copy as the snapshot and the field watched, the callback fires exactly when the state changed. |
| Sync.Merge | StateManager.js:17 | The merge has the keys of both maps. The partial state wins on its keys, and every other key keeps its value. |
| Sync.Apply | StateManager.js:83-92 | A control whose field is undefined is untouched. Its type, name and kind never change; only `checked` (or, for a plain input, `value`) is written. For the shape extraction stores, each kind's written property is stated in terms of the stored value. A radio is covered for any stored value. A plain checkbox takes the JavaScript truthiness of any stored value (`Truthy`). A plain input takes the string coercion (`ToJsString`) of a boolean or a list. |
| Sync.ApplyThenExtract | StateManager.js:80-95 | Round trip: writing a well-shaped stored value onto a non-radio control and extracting that control again leaves the state unchanged. |
| Sync.RadioRoundTrip | StateManager.js:88-89 | For a radio the round trip holds exactly when the stored string is `""` or the radio's own value. |
| Sync.ReExtractAllIsIdentity | StateManager.js:80-95 | Writing the state onto all controls (`ApplyAll`, the loop of :82-94) and re-extracting them in order reproduces the state, when no control is a radio and every field is well shaped. |
| Manager.Control.constructor | StateManager.js:23 | A control has the given type, name, `checked` flag and value. |
| Manager.StateManager.constructor | StateManager.js:2-10 | The new state is the extraction of every control in order from `{}`. Its keys are exactly the controls' names, and its lists are free of duplicates. Every list value comes from a checked box of that field, and nothing has been notified. |
| Manager.StateManager.InitializeState | StateManager.js:22-27 | Extracts every control in order without notifying; the state becomes `ExtractAll` of the old state. |
| Manager.StateManager.UpdateState | StateManager.js:30-55 | The new state is `Extract` of the old one. At most one notice is appended, and only when `Fires` holds on the shallow snapshot; a notice implies `callUpdate`, a callback and a real change. |
| Manager.StateManager.HandleEvent | StateManager.js:63-68 | An event from a managed control extracts it with notification on. |
| Manager.StateManager.SetState | StateManager.js:16-19 | The state becomes the merge and every control becomes `Apply` of the merged state onto it. No notification is sent. |
| Manager.StateManager.UpdateElements | StateManager.js:80-95 | Every control becomes `Apply` of the state onto its old properties. Afterwards, re-extracting any well-shaped non-radio control leaves the state unchanged. |

## Left out

- Discovery with `querySelectorAll('input, select, textarea')` is not modelled. The controls are a constructor parameter, in document order, and are the same list on every pass.
- Binding listeners, unbinding them, and `destroy` are not modelled. The listener is `HandleEvent`. `removeEventListener` is handed fresh closures, so it removes nothing; that has no effect on the state.
- The body of `onStateUpdate` is foreign code. Each invocation is recorded as a `Notice` instead, and whether the callback is a function is a boolean.
- The `JSON.stringify` comparison is modelled as structural equality of the two maps. Key order does not matter here: the snapshot keeps the state's key order, and a new key always makes the two states differ.
- The per-field `!==` of the watch gate is modelled as structural inequality. Only the touched field can differ, and a freshly filtered array with the same contents never reaches the gate, because the stringified states are then equal.
- Sync.Extract: idealises a truthy non-array value stored under a multi-checkbox name (`true`, a non-empty string) as the empty list. Such a value can come from `setState`, or from extraction alone: a text, hidden or select input, or a radio, named like the boxes (`tags[]`) stores a string there. The code then behaves as follows when a box of that name is extracted. A checked box runs a substring test (`includes` on the string): if it fails, `push` on the string throws a TypeError; if it matches, the string stays as it is. An unchecked box calls `filter`, which a string does not have, so it throws. On a stored `true`, both `includes` and `filter` throw. A throw aborts that update, or the whole construction when it happens in `#initializeState`. The model instead starts a fresh list in every one of these cases.
- Sync.Apply: treats a non-array stored under a multi-checkbox name as "not contained". The code calls `includes` on it: a string matches substrings, and a boolean throws.
- `setState` values other than strings, booleans and lists of strings (numbers, objects, `null`) are not modelled.
- Manager.StateManager.UpdateElements: writes every control, but the DOM does not accept every write to `value` (:91). Assigning a non-empty string to a file input's `value` throws an InvalidStateError. A file input's field holds the chosen file's path once it has been extracted (:46-47), so from then on every pass throws at that input. The throw stops the `forEach` (:82-94), and the controls after it in document order are not written. A `select` given a value that matches none of its options deselects every option and then reads `""`, so re-extracting it changes the state, and the round trip of the contract fails for it. The model stores the coerced string on every control instead.
- Manager.StateManager.UpdateElements: each `Control` is independent. In the DOM, setting `checked = true` on a radio (:89) unchecks every other radio of its group. The contract therefore says that two radios of one group with the same value as the stored string both end checked, whereas the browser leaves only the later one checked. This only matters for duplicate values within a radio group.
- Manager.StateManager.SetState: inherits the radio-group and `value`-write simplifications of `UpdateElements`. In particular, a throw at a file input (even from `setState({})`) escapes `setState` after the merge at :17 has already replaced the state, and leaves the later controls unwritten. The model completes the whole pass.
- Event dispatch order and concurrency are not modelled: each event is one atomic `HandleEvent`.
- The class keeps the notifying behaviour as written (the shallow snapshot); the corrected rule is stated and proved in `Sync` only.
- The snapshot is a shallow copy, and the model follows that code rather than a deep copy.
- The state's values are modelled with value semantics: a list is a sequence, not a shared array. The model covers the one sharing the code relies on (snapshot and state share the array `push` grows, see `Snapshot`), but not these other three aliasing effects:
  - `setState` keeps the caller's arrays by reference (:17). One array stored under two keys then grows under both when one box is checked (:37), whereas `Sync.Extract` changes the touched key only.
  - The callback's second argument is the live `this.state` (:52). Later extractions change that object in place (:34-47), and the snapshot passed as the first argument shares arrays with it. A `Notice` instead freezes both states as values.
  - Arrays the caller keeps after `setState` change when the form does, and the caller's changes to them show up in the state.

## Findings

| source | as written | input that shows it | evidently intended | confidence | as-written member | corrected member |
|---|---|---|---|---|---|---|
| StateManager.js:31-50 | `previousState` is a shallow copy. `push` grows the array it shares with the state, so both states stringify alike and no callback fires. | State `{"tags[]": ["a"]}`, then check the `tags[]` box whose value is "b" (with any callback and no watch list). | Every change of a watched field notifies, this check included. | not executed | Sync.MissedNotification | Sync.CopiedSnapshotReportsEveryChange |

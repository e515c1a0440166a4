# Field extenders for an undo/redo history, in Dafny

This project models `src/fieldExtenders.js` of redux-undo. That file sketches
"field extenders": middleware-like units placed in front of the wrapped
undoable reducer. Each unit takes a shallow copy of the history record
(`past`, `present`, `future` and extra fields), changes some fields, and
tail-calls the next reducer with the same action. The next reducer is the
next extender in the list, or the undoable reducer for the last one.

The model has five modules:

- `JsValues` (`js_values.dfy`) holds the parts of JavaScript's value model
  the extenders touch. A plain object is a `map<string, Value>`. A missing
  property reads as `undefined`. `x - 1` is coerced to a number, which can
  be `NaN`. Array indexing returns `undefined` out of range. Reading an
  index of `undefined`/`null` throws a `TypeError`, and a transition
  returns a `Completion` (`Returned(history)` or `Threw(error)`).
- `Extenders` (`extenders.dfy`) holds the four extenders as one
  `Extender` datatype. It has the Stage 1 factories (`ActionTypeField`,
  `FlattenState`, `NullifyFields`, `CustomFieldExtender`), one function
  per extender that computes the history it forwards, `Transform`, and
  the Stage 2 `Bind`. `Bind` returns the Stage 3 `Reducer` as a lambda
  that forwards to the next reducer.
- `ExtenderProperties` (`extender_properties.dfy`) holds what each
  extender promises about the history it forwards.
- `Pipeline` (`pipeline.dfy`) holds the chain. `Compose` binds the list
  right to left around the terminal reducer. `Run` is one dispatch.
  `RunIsTerminalAfterFold` proves that a dispatch is the terminal reducer
  applied to the left-to-right fold of the transforms. The file never
  writes this composition; it is implied by `fieldExtenders: [a(), b()]`
  and by the comment that `nextReducer` is "the next field extender or the
  wrapped undoable reducer".
- `InPlace` (`in_place.dfy`) holds the nullifier as the repository writes
  it. History entries are heap objects (`Entry`). `RemoveFields` assigns
  each name in a loop. `NullifyInPlace` clears the target entry in place,
  and that entry is shared between the caller's history and the shallow
  copy it forwards. When no entry occurs twice, the method's result agrees
  with the value transform `Extenders.NullifyTransform` that the pipeline
  uses.
- `Scenarios` (`scenarios.dfy`) holds concrete dispatches on small
  histories.

The undoable reducer is not defined in the file. It is a parameter
(`terminal: Reducer`) that the model does not interpret.

Three points about the behaviour of the file itself:

- Outside a redo, line 109 indexes `past` with the history's own
  `length` property. A history normally has none, so the index is `NaN`
  and nothing is cleared. When the history has a numeric or boolean
  `length` key (for example one copied up by `flattenState`),
  `past[length - 1]` is cleared instead. Line 109 evidently means the most
  recent past entry (see Findings). The corrected behaviour is available
  as a separate factory, `NullifyFieldsCorrected`.
- The file validates no arguments, so the model raises no configuration
  errors.
- Every unit in the file calls `nextReducer`. The only early exit is a
  thrown `TypeError`.

## Model

| member | source | states |
|---|---|---|
| `Extenders.CustomFieldExtender` | src/fieldExtenders.js:30 | the factory yields the custom extender, whatever its (unused) configuration |
| `Extenders.FlattenState` | src/fieldExtenders.js:72 | the factory yields the flattening extender; it takes no configuration |
| `Extenders.ActionTypeField` | src/fieldExtenders.js:56-58 | with no predicate supplied no action is ignored; a supplied predicate is used as given |
| `Extenders.NullifyFields` | src/fieldExtenders.js:90 | omitted `fields` default to none; an omitted (`undefined`) `nullValue` becomes `null`, so the replacement is never `undefined`; given arguments are kept; the past side uses `state.length - 1` |
| `Extenders.NullifyFieldsCorrected` | src/fieldExtenders.js:109 | the same configuration as `NullifyFields`, with the past-side target taken as `past.length - 1` |
| `Extenders.CustomTransform` | src/fieldExtenders.js:42-43 | the forwarded copy has `extraField == 'something'`; it adds only that key, and every other field keeps the input's value |
| `Extenders.ActionTypeTransform` | src/fieldExtenders.js:62-65 | for an action that is not ignored, `actionType` is the action's type, only that key may be added, and every other field keeps the input's value; for an ignored action the copy equals the input, including any earlier `actionType` |
| `Extenders.FlattenTransform` | src/fieldExtenders.js:77-82 | keys are the history's keys plus present's; every key of `present` has present's value; keys not in `present` keep the top-level value |
| `Extenders.Cleared` | src/fieldExtenders.js:95-97 | after the assignments every listed name maps to `nullValue`, names missing from the entry are created, and all other fields keep their values |
| `Extenders.ClearedEntry` | src/fieldExtenders.js:92-98 | `removeFields` on an object entry clears every listed name to `nullValue`, creating missing ones, and keeps every other field; any other value (including `undefined`) is left as it is |
| `Extenders.ClearElement` | src/fieldExtenders.js:107 | `removeFields(xs[i])` as a value: the array keeps its length, the element at `i` becomes its `ClearedEntry`, every other element is unchanged, and an index that is `NaN` or out of range changes nothing |
| `Extenders.ClearAt` | src/fieldExtenders.js:109 | `removeFields(h[key][i])` on an element the history holds: the history keeps its keys and every key other than `key`; an array at `key` is replaced by its `ClearElement`; a non-array at `key` leaves the history as it was |
| `Extenders.PastIndex` | src/fieldExtenders.js:109 | the repository's indexing `state.length - 1` is `NaN` for a history without `length` and `n - 1` for a numeric `length` `n`; the corrected indexing is `past.length - 1` for an array `past` and `NaN` otherwise |
| `Extenders.NullifyTarget` | src/fieldExtenders.js:106-110 | on a redo the nullifier reads `future[0]`; otherwise it reads `past` at the index `PastIndex` gives |
| `Extenders.Transform` | src/fieldExtenders.js:39-113 | each Stage 3's `newState`: the action-type copy (lines 62-65), the flattened copy (lines 77-81), the nullifier's result, which may be a throw (lines 104-110), and the custom copy (lines 42-43) |
| `Extenders.NullifyTransform` | src/fieldExtenders.js:103-110 | throws a `TypeError` naming the array exactly when the array the target selection reads (`future` on a redo, `past` otherwise) is `undefined` or `null`; when it returns, the history keeps exactly its keys |
| `Extenders.Forward` | src/fieldExtenders.js:45 | `return nextReducer(newHistory, action)`: a returned history is passed on with the same action, and a throw comes back without reaching the next reducer |
| `Extenders.Bind` | src/fieldExtenders.js:33-46 | Stage 3 of an extender bound to `next` returns exactly `next`'s result on the transformed history and the unchanged action, and returns the transform's error when it throws; the same shape is at lines 60-69, 73-85 and 100-114 |
| `ExtenderProperties.OnlyNullifierThrows` | src/fieldExtenders.js:42-45 | every extender other than the nullifier always reaches its next reducer; a throw comes only from the nullifier, as a `TypeError` |
| `ExtenderProperties.DefaultActionTypeRecordsEveryAction` | src/fieldExtenders.js:58-64 | `actionTypeField()` with no predicate records every action's type |
| `ExtenderProperties.FlattenPresentField` | src/fieldExtenders.js:78-81 | `present` is kept unless the present value has its own `present` key, which then replaces it |
| `ExtenderProperties.FlattenIdempotent` | src/fieldExtenders.js:77-82 | flattening twice gives what flattening once gives, when present has no `present` key |
| `ExtenderProperties.ClearedIdempotent` | src/fieldExtenders.js:95-96 | clearing the same names twice gives the entry clearing them once gives |
| `ExtenderProperties.ClearedEntryIdempotent` | src/fieldExtenders.js:92-97 | `removeFields` applied twice to a value gives what one application gives, for entries and for non-entries |
| `ExtenderProperties.ClearAtIdempotent` | src/fieldExtenders.js:107 | clearing one array element of a history twice gives what clearing it once gives |
| `ExtenderProperties.NullifyChangesOnlyTarget` | src/fieldExtenders.js:103-110 | the nullifier throws exactly when the indexed `future`/`past` is `undefined` or `null`; otherwise only the targeted element of that array changes, by `removeFields`, and every other key and element keeps its value |
| `ExtenderProperties.NullifyRedoClearsFirstFuture` | src/fieldExtenders.js:106-107 | on a redo, every listed name is `nullValue` on `future[0]` (created if missing); its other fields, the rest of `future`, `past`, `present` and all other keys are unchanged |
| `ExtenderProperties.NullifyMissingTargetIsNoOp` | src/fieldExtenders.js:93 | when the targeted element is not an object (an empty `future`, an index out of range or `NaN`), the forwarded history equals the input |
| `ExtenderProperties.NullifyPastAsWrittenIsNoOp` | src/fieldExtenders.js:109 | as written, a history without a `length` key makes the past-side index `NaN`, and the forwarded history equals the input |
| `ExtenderProperties.NullifyCorrectedClearsLastPast` | src/fieldExtenders.js:108-110 | with the corrected index, the most recent past entry has the names cleared and the earlier entries are untouched |
| `ExtenderProperties.NullifyIdempotent` | src/fieldExtenders.js:103-110 | nullifying the forwarded history again with the same action forwards it unchanged |
| `ExtenderProperties.NullifyDefaultChangesNothing` | src/fieldExtenders.js:90 | `nullifyFields()` with its defaults either throws or forwards the input history unchanged |
| `Pipeline.RunIsTerminalAfterFold` | src/fieldExtenders.js:10-15 | a dispatch through the chain is the terminal reducer, called once with the original action, on the history every extender transformed in list order; an extender's throw returns without reaching the terminal |
| `Pipeline.Compose` | src/fieldExtenders.js:10-15 | an empty list is the terminal reducer; otherwise the first listed extender is the outermost unit: its throw ends the dispatch, and its transformed history enters the chain the rest of the list builds |
| `Pipeline.Run` | src/fieldExtenders.js:34 | a dispatch with no extenders is one call of the terminal reducer; a throw of the first extender is the dispatch's result |
| `Pipeline.ChainOrderTwo` | src/fieldExtenders.js:11-14 | for `[A, B]` in front of `R`, the result is `R(tB(tA(h)), action)`: the first listed extender transforms first |
| `Pipeline.ComposeAppend` | src/fieldExtenders.js:34 | the chain of `us + vs` is the chain of `us` in front of the chain that `vs` builds around the terminal |
| `Pipeline.ActionTypeTracksLastRecorded` | src/fieldExtenders.js:63-65 | over any sequence of dispatches, behind a terminal that keeps `actionType`, the field holds the type of the most recent non-ignored action, or its initial value when every action was ignored |
| `InPlace.RemoveFields` | src/fieldExtenders.js:92-98 | the loop assigns in place; an absent (`undefined`) target is left alone; a present entry's fields end as `Cleared` of their old value |
| `InPlace.Target` | src/fieldExtenders.js:106-110 | the entry `removeFields` receives is `future[0]` on a redo; otherwise it is `past[state.length - 1]` with the repository's indexing and `past[past.length - 1]` with the corrected one; it is `undefined` when that index is out of range, and when there is one, it belongs to the history |
| `InPlace.NullifyInPlace` | src/fieldExtenders.js:103-110 | the forwarded copy holds the same entries as the caller's history; the target is cleared in place and every other entry keeps its fields; when no entry is shared, the new snapshot is what `NullifyTransform` computes from the old one |
| `Scenarios.ActionTypeAfterIgnoredAction` | src/fieldExtenders.js:63-65 | `INC` then an ignored `IGNORE_ME` leaves `actionType == 'INC'` |
| `Scenarios.ActionTypeThenCustom` | src/fieldExtenders.js:42-43 | `[actionTypeField(), customFieldExtender()]` on `{type: 'INC'}` forwards a history with `actionType: 'INC'` and `extraField: 'something'`, every other key unchanged |
| `Scenarios.FlattenPresentWins` | src/fieldExtenders.js:77-82 | `{present: {count: 5}, foo: 1, count: 0}` flattens to `count: 5`, `foo: 1` |
| `Scenarios.NullifyExampleAsWritten` | src/fieldExtenders.js:109 | as written, a non-redo action leaves `past`'s last entry `{a: 3, b: 4}` unchanged |
| `Scenarios.NullifyExampleCorrected` | src/fieldExtenders.js:109 | corrected, the same action sets `b: null` on the last past entry and keeps `a` and the earlier entry |
| `Scenarios.LengthKeySteersNullify` | src/fieldExtenders.js:109 | a history with `length: 1` makes the nullifier, as written, clear `past[0]` |
| `Scenarios.FlattenedLengthSteersNullify` | src/fieldExtenders.js:77-82 | behind `flattenState`, a present value `{length: 1}` makes the nullifier, as written, clear `past[0]` |

## Left out

- The body of `undoable()` and the undo/redo history algorithm are not defined in the file. The terminal reducer is an uninterpreted parameter.
- `includeAction()` (line 57) and the undo/redo side-effects idea (line 117) are only mentioned, never implemented.
- The top-level example at lines 10-26 (`undoable(myReducer, ...)`, `pastStates`) is pseudo-code with undefined names. Only the order it implies is modelled.
- Redux dispatch and store wiring are left out. `Pipeline.DispatchAll` only runs successive dispatches so that properties over several actions can be stated. It stops at the first throw.
- `customFieldExtender`'s `extenderConfig` and the undoable configuration's other options (such as `initTypes`) are never read, so they are not modelled.
- The history is always an object. A history of `undefined` or `null` is not modelled: reading `.present` off it at line 80, or `.past`/`.future` at lines 107 and 109, would throw.
- An action is reduced to its `type`. The file reads no other property of an action, and the model forwards only the type.
- Numbers are integers. Floating point is not modelled.
- In `state.length - 1`, the model coerces `undefined`, `null`, booleans and numbers as JavaScript does. Strings, arrays and objects are treated as `NaN`, so numeric strings are not converted.
- Indexing a string or a plain object yields `undefined` in the model. JavaScript would read a character or a `"0"` property.
- Spreading a non-object `present` contributes nothing. JavaScript would copy indexed keys from arrays and strings.
- `removeFields` only changes object entries. Assigning to an array entry or to a truthy primitive is treated as no change. Strict mode would throw for primitives.
- A key holding `undefined` and a missing key both read as `undefined`. The map still tells them apart, as the spread does.
- `fields` is a list of names. A `null` or other non-iterable `fields` (only `undefined` takes the default `[]`) would make the loop at line 95 throw a `TypeError` once an object target is found; this is not modelled.
- An `ignoreActions` predicate is assumed to return a boolean. A truthy non-function argument, which would throw when called, is not modelled.
- Call counting is not modelled, because functions cannot count calls. "Calls `nextReducer` exactly once" is stated as: the result equals one application of the next reducer (`Bind`, `RunIsTerminalAfterFold`).
- The pipeline's `Run` uses the value form of the nullifier. Sharing between copies is modelled in `InPlace`, where `past`/`future` always exist. The `TypeError` path for a missing array appears only in the value form.
- `present` is a value in `InPlace`, so any sharing between `present` and a `past`/`future` entry is not captured.
- InPlace.NullifyInPlace: agreement with `NullifyTransform` is stated only when no entry occurs twice in `past` and `future`. The per-entry contract still covers shared entries: every occurrence shows the change.

## Findings

| source | as written | input that shows it | evidently intended | confidence | as-written member | corrected member |
|---|---|---|---|---|---|---|
| src/fieldExtenders.js:109 | `state.past[state.length - 1]` indexes `past` with the history object's own (missing) `length` property | `{past: [{a:1,b:2},{a:3,b:4}], present: {}, future: []}`, `fields = ['b']`, a non-redo action: nothing is cleared; with `flattenState` in front and `present = {length: 1}`, `past[0]` is cleared instead | `state.past[state.past.length - 1]`: clear the most recent past entry | high (not executed) | `ExtenderProperties.NullifyPastAsWrittenIsNoOp` | `ExtenderProperties.NullifyCorrectedClearsLastPast` |

The chain accepts both variants. `NullifyFields` keeps the repository's
behaviour. `NullifyFieldsCorrected` builds the corrected nullifier, and
`InPlace.NullifyInPlace` handles both kinds of indexing.

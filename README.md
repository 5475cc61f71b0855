# Form-state engine of lynx-form-x, modelled in Dafny

This project models the state engine behind the lynx-form-x form library. It
covers the pure reducer over `{values, errors, touched, isSubmitting}`, the
action factories that dispatch into it, the form controller (`useForm`) with
its input, blur, submit and reset handlers, and the per-field accessor
(`useField`). The React and zod machinery is replaced by explicit parameters.

- `js_values.dfy` (`JsValues`): JavaScript values as the engine sees them.
  - `undefined`, `null`, booleans, integers and strings.
  - Truthiness, `a || b`, and reading an absent key as `undefined`.
- `form_reducer.dfy` (`FormReducer`): `FormState`, `Action` and `Reduce`.
  - `values` is `Option<map>` because a reset without initial values makes it `undefined`.
  - A sixth action kind, `Unrecognized`, stands for an action object whose type is none of the five.
- `form_actions.dfy` (`FormActions`): the five factories.
  - Each appends exactly one action to a log; this is how dispatching is modelled.
  - `Run` folds a log through `Reduce`, first to last.
- `form_validation.dfy` (`FormValidation`): the validation half of `useForm`.
  - The custom validator and the schema are abstract functions. The schema is parse-and-format: it returns no result when the value set parses, and otherwise the formatted error object, keyed as zod keys it.
  - `ValidateField` is the single-field check. `SubmitErrors` is the error mapping a blocked submit dispatches.
- `form_controller.dfy` (`FormController`): the class `Controller`.
  - Its state cell always equals the fold of its dispatch log (`Valid`).
  - Each handler reads the snapshot of `values` it was rendered with and dispatches an ordered sequence of actions. `InputActions` and `BlurActions` specify those sequences.
  - A submission is split in two. `HandleSubmit` covers validation, raising the flag and running the callback. `Settle` runs the `finally` once the callback's result settles.
  - `pending` counts the attached `finally` callbacks. `submissions` records what the callback was called with.
- `use_field.dfy` (`UseField`): the accessor.
  - A read projection that is `None` when reading `values[name]` would throw.
  - Setters that delegate to the controller.
- `scenarios.dfy` (`FormScenarios`): the repository's demo form (`login` and `password`, both required), driven through the controller.
  - A blocked empty submit.
  - A submit that goes ahead and then settles.
  - The stale error left when an input makes the whole form pass.
  - A custom validator that blocks with only an `undefined` message.
  - Overlapping submissions.
  - A callback that throws synchronously.

Behaviours of the code that the model keeps as written:
- When the schema accepts the candidate value set, the single-field check dereferences an undefined format result and throws. No error is set or cleared (`ValidateField`'s `Throws`).
- On blur, the custom validator is given the field set to `undefined`. The schema is given the unmodified snapshot.
- A custom-validator submit is blocked when the returned mapping has any key, even if every message is empty.
- A failed schema submit writes only the entries that carry `_errors`. Other fields are never cleared.
- `resetForm` passes the configured initial values as given. When there are none, `values` becomes `undefined`, whereas the initial state uses `{}`. Reads then throw until a `setValue` spreads `undefined` into `{}`.
- A callback that throws synchronously escapes before the `finally` is attached, so the flag stays up.
- Nothing guards against a second submit while one is in flight.

Behaviours a reader might expect that the code does not have:
- Submit validation does not clear the errors of fields without an error.
- The custom branch blocks on key count, not on non-empty messages.
- There is no guard against concurrent submits.
- `isSubmitting` is not always lowered after a submission.
- Blur does not always validate the committed value.

## Model

| member | source | states |
|---|---|---|
| FormReducer.SetValueOnlyChangesField | src/reducers/formReducer.tsx:30-34 | SET_VALUE stores the value under the field, creating `values` if it was undefined; every other key of `values`, and errors, touched and the flag, are unchanged |
| FormReducer.SetErrorOnlyChangesField | src/reducers/formReducer.tsx:35-39 | SET_ERROR changes only `errors[field]` |
| FormReducer.SetTouchedOnlyChangesField | src/reducers/formReducer.tsx:40-44 | SET_TOUCHED changes only `touched[field]` |
| FormReducer.SetIsSubmittingOnlyChangesFlag | src/reducers/formReducer.tsx:45-46 | SET_IS_SUBMITTING changes only the flag |
| FormReducer.ResetForgetsState | src/reducers/formReducer.tsx:47-53 | RESET yields initial values as given, empty errors and touched, flag down, whatever the prior state |
| FormReducer.UnrecognizedIsNoOp | src/reducers/formReducer.tsx:54-55 | an action of no known kind returns the state unchanged |
| FormReducer.LastWriteWins | src/reducers/formReducer.tsx:30-44 | two writes to the same slot of the same field equal the second write alone |
| FormReducer.ReduceIdempotent | src/reducers/formReducer.tsx:29-56 | applying any action twice equals applying it once |
| FormReducer.DifferentFieldsCommute | src/reducers/formReducer.tsx:30-44 | per-field actions on different fields commute |
| FormActions.SetIsSubmitting | src/reducers/formActions.ts:4-7 | dispatches exactly one SET_IS_SUBMITTING carrying the flag |
| FormActions.SetValue | src/reducers/formActions.ts:9-13 | dispatches exactly one SET_VALUE carrying field and value unchanged |
| FormActions.SetError | src/reducers/formActions.ts:15-19 | dispatches exactly one SET_ERROR carrying field and the untyped error unchanged |
| FormActions.SetTouched | src/reducers/formActions.ts:21-25 | dispatches exactly one SET_TOUCHED carrying field and flag |
| FormActions.Reset | src/reducers/formActions.ts:27-28 | dispatches exactly one RESET carrying the initial values as given, `undefined` included |
| FormActions.RunAppend | src/hooks/useForm.tsx:39-44 | the store's state after one more dispatch is the reducer applied to the state before it |
| FormActions.RunConcat | src/hooks/useForm.tsx:39-44 | dispatching two batches in turn equals dispatching their concatenation |
| FormActions.DispatchReduces | src/reducers/formActions.ts:4-28 | whatever a factory dispatched is reduced into the state the log had reached |
| FormActions.SetValuesLastWins | src/reducers/formReducer.tsx:30-34 | after any run of SET_VALUEs each field holds the last value written to it, fields never written keep theirs, and nothing else changes |
| FormActions.RunFlag | src/reducers/formReducer.tsx:45-53 | the flag after a log is the one carried by its last SET_IS_SUBMITTING, or false after a later RESET, or the starting flag |
| FormValidation.ValidateField | src/hooks/useForm.tsx:46-65 | no check exactly when no validator is configured; a reported error is always a message or `''`; a schema that accepts the candidate makes the check throw; the custom branch never throws |
| FormValidation.SchemaFieldMessage | src/hooks/useForm.tsx:49-58 | with a failed parse the field gets its first message, or `''` when the schema reported nothing for it; a field named `_errors` makes the lookup throw |
| FormValidation.CustomFieldMessage | src/hooks/useForm.tsx:59-61 | without a schema the field gets what the custom validator returns for it on the snapshot with the field overridden, when truthy, and `''` otherwise |
| FormValidation.ValidationCandidates | src/hooks/useForm.tsx:49-60 | a given value overrides the field in the set the schema sees, every other field as in the snapshot; with no value the schema sees the snapshot unmodified; the custom validator always sees the field overridden, by `undefined` on blur |
| FormValidation.SubmitErrors | src/hooks/useForm.tsx:84-103 | never blocks without a validator; with a schema blocks exactly when the parse fails; with the custom validator blocks exactly when it returns at least one key |
| FormValidation.SchemaSubmitWritesReportedFields | src/hooks/useForm.tsx:85-94 | a failed parse writes exactly the entries that carry `_errors`, each with its first message; the top-level list and unreported fields are not written |
| FormValidation.CustomSubmitMessages | src/hooks/useForm.tsx:95-102 | a submit blocked by the custom validator writes exactly the keys it returned, each with its message when truthy and `''` otherwise |
| FormValidation.CustomSubmitBlocksOnKeys | src/hooks/useForm.tsx:95-102 | a custom mapping with keys but only falsy messages still blocks, and each of its fields gets `''` |
| FormValidation.SchemaShadowsValidate | src/hooks/useForm.tsx:48-59 | with a schema configured neither the single-field check nor submit depends on the custom validator |
| FormController.InputActions | src/hooks/useForm.tsx:67-74 | an input dispatches SET_VALUE with the event value first, then at most one SET_ERROR for that field only, present exactly when a validator is configured and the check does not throw, carrying the error the check reports for the typed value |
| FormController.BlurActions | src/hooks/useForm.tsx:76-82 | a blur dispatches SET_TOUCHED true before any validation, then at most one SET_ERROR for that field only, carrying the error the check reports with no value given |
| FormController.CustomBlurError | src/hooks/useForm.tsx:76-82 | with only a custom validator a blur marks the field touched and writes the validator's message for the field computed with that field set to `undefined`, or `''` when falsy |
| FormController.PerFieldKeepsFlag | src/reducers/formReducer.tsx:30-46 | per-field actions never move the submitting flag |
| FormController.ErrorActionsFor | src/hooks/useForm.tsx:88-100 | the blocked-submit loop yields one SET_ERROR per error key, no field twice, each with its error |
| FormController.RunErrorActions | src/hooks/useForm.tsx:88-100 | dispatching those SET_ERRORs, in whatever order, merges the errors into the state and changes nothing else |
| FormController.PassingInputKeepsStaleError | src/hooks/useForm.tsx:49-58 | an input that makes the whole set pass the schema stores the value and leaves the field's previous error in place |
| FormController.NoValidatorInputOnlyStores | src/hooks/useForm.tsx:59-74 | without a validator an input only stores the value |
| FormController.SubmittingUntilSettled | src/hooks/useForm.tsx:105-108 | after a submission begins the flag stays up through any per-field activity and drops at the `finally` |
| FormController.OverlappingSubmitsDropFlagEarly | src/hooks/useForm.tsx:84-108 | without a validator two submits in a row both run the callback; after both went ahead and one settled, the flag is down while the other's `finally` is still pending |
| FormController.Initial | src/hooks/useForm.tsx:39-44 | the reducer is seeded with the supplied initial values, or `{}` when there are none, empty errors and touched, and the flag down |
| FormController.Controller.constructor | src/hooks/useForm.tsx:39-44 | the initial state holds the supplied initial values, or `{}` when there are none, with empty errors and touched and the flag down; nothing dispatched, no submission pending |
| FormController.Controller.SetFormValue | src/hooks/useForm.tsx:116-118 | dispatches one SET_VALUE and reduces it, with no validation |
| FormController.Controller.SetFormError | src/hooks/useForm.tsx:119-121 | dispatches one SET_ERROR and reduces it |
| FormController.Controller.HandleInput | src/hooks/useForm.tsx:67-74 | dispatches exactly `InputActions` for the snapshot and the new state is their fold; reports whether the check threw |
| FormController.Controller.HandleBlur | src/hooks/useForm.tsx:76-82 | dispatches exactly `BlurActions` for the snapshot and the new state is their fold |
| FormController.Controller.DispatchErrors | src/hooks/useForm.tsx:88-100 | one SET_ERROR per error key; errors become the old errors overridden by the mapping; nothing else changes |
| FormController.Controller.BeginSubmission | src/hooks/useForm.tsx:105-108 | raises the flag, records one callback call with the snapshot, applies the callback's helper calls, and attaches a `finally` unless the callback threw |
| FormController.Controller.HandleSubmit | src/hooks/useForm.tsx:84-109 | blocked exactly when `SubmitErrors` gives a mapping, then only errors change and the callback is not called; otherwise the submission begins, with no check of the flag |
| FormController.Controller.Settle | src/hooks/useForm.tsx:106-108 | the `finally` lowers the flag whether the result resolved or rejected; the promise it returns rejects exactly when the result did, and nobody handles it |
| FormController.Controller.ResetForm | src/hooks/useForm.tsx:111-114 | RESET with the configured initial values, never the current ones |
| UseField.UseField | src/hooks/useField.tsx:4-9 | value, error and touched are the state's entries for the name, `undefined` when absent; the read throws when `values` is undefined |
| UseField.SetValue | src/hooks/useField.tsx:10 | exactly the controller's `setValue(name, v)` |
| UseField.SetError | src/hooks/useField.tsx:11 | exactly the controller's `setError(name, e)` |
| UseField.SettersKeepOtherFields | src/hooks/useField.tsx:10-11 | while `values` is defined, the bound setters leave the view of every other field unchanged |
| UseField.SetValueRevivesValues | src/reducers/formReducer.tsx:30-34 | when `values` is undefined every read throws, but a bound `setValue` makes it `{}` plus the field, so every other field reads `undefined` again |
| UseField.SetValueReadsBack | src/hooks/useField.tsx:7-10 | after the bound `setValue(v)` the field reads `v` |
| UseField.ResetWithoutInitialValues | src/hooks/useForm.tsx:111-114 | without initial values a fresh form reads every field as `undefined`, but after a reset every read throws |

## Left out

- Rendering components are not modelled: the form context provider, input wiring, error display and the submit button. The input's mount effect that stores `''` is not modelled; the scenarios perform it explicitly.
- The submit button's tap guard is the only protection against double submit. It is a caller-side assumption outside the model.
- React scheduling is not modelled: batching, memoisation and stale closures. Each handler sees the state as it stood when it was called, as if a render happened between events.
- zod is abstract, as parse-and-format. Only the `_errors` list of each top-level entry is modelled, not deeper nested entries. A validator or schema that throws is not modelled.
- FormController.Controller.DispatchErrors: the SET_ERROR actions of a blocked submit come in an unspecified order. The code uses the key insertion order of the error object, which only affects the log's order, not the state.
- Promises are not modelled. Settling is the separate `Settle` event, and a rejection's propagation is only its result flag. Helper calls the callback makes after it returns are modelled as direct `SetFormValue`/`SetFormError` calls.
- The `console.log` of the formatted error is not modelled.
- `null` initial values are not modelled. Numbers are integers (no NaN, no fractions). Keys inherited from the object prototype are not modelled. Field names are plain strings, not checked against the value type.

/** The form controller (src/hooks/useForm.tsx): a state cell updated only
    through the reducer, and the input, blur, submit and reset handlers. Each
    handler reads the snapshot of `values` it was rendered with and dispatches
    an ordered sequence of actions. A submission is split into its start
    (`HandleSubmit`) and the later settling of the callback's result
    (`Settle`). */
module FormController {
  import opened JsValues
  import opened FormReducer
  import FormActions
  import opened FormValidation

  /** The state the reducer is seeded with: `initialValues || {}`. */
  function Initial(initialValues: Record): (s: FormState)
    ensures s.values == (if initialValues.Some? then initialValues else Some(map[]))
    ensures s.errors == map[] && s.touched == map[] && !s.isSubmitting
  {
    FormState(Some(Spread(initialValues)), map[], map[], false)
  }

  /** The SET_ERROR, if any, a single-field check dispatches for `f`. */
  function CheckActions(c: FieldCheck, f: Field): seq<Action>
  {
    if c.Report? then [Action.SetError(f, c.error)] else []
  }

  /** What `handleInput(f)` dispatches for an input event carrying `value`:
      the new value first, then at most one error, for `f` only. */
  function InputActions(cfg: Config, snapshot: Record, f: Field, value: string): (acts: seq<Action>)
    ensures 1 <= |acts| <= 2 && acts[0] == Action.SetValue(f, Str(value))
    ensures |acts| == 2 ==>
      var c := ValidateField(cfg, snapshot, f, Str(value));
      c.Report? && acts[1] == Action.SetError(f, c.error)
    ensures |acts| == 2 <==> cfg.HasValidator() && !ValidateField(cfg, snapshot, f, Str(value)).Throws?
  {
    [Action.SetValue(f, Str(value))] + CheckActions(ValidateField(cfg, snapshot, f, Str(value)), f)
  }

  /** What `handleBlur(f)` dispatches: the field is marked touched before any
      validation, then at most one error, for `f` only. */
  function BlurActions(cfg: Config, snapshot: Record, f: Field): (acts: seq<Action>)
    ensures 1 <= |acts| <= 2 && acts[0] == Action.SetTouched(f, true)
    ensures |acts| == 2 ==>
      var c := ValidateField(cfg, snapshot, f, Undefined);
      c.Report? && acts[1] == Action.SetError(f, c.error)
    ensures |acts| == 2 <==> cfg.HasValidator() && !ValidateField(cfg, snapshot, f, Undefined).Throws?
  {
    [Action.SetTouched(f, true)] + CheckActions(ValidateField(cfg, snapshot, f, Undefined), f)
  }

  /** With only a custom validator, a blur marks the field touched and writes
      what the validator returns for the field when it is given the snapshot
      with that field set to `undefined`, or `''` when that is falsy. */
  lemma CustomBlurError(cfg: Config, s: FormState, f: Field)
    requires cfg.schema.None? && cfg.validate.Some?
    ensures var m := cfg.validate.value(Some(Spread(s.values)[f := Undefined]));
      var r := FormActions.Run(s, BlurActions(cfg, s.values, f));
      && f in r.touched && r.touched[f]
      && f in r.errors && r.errors[f] == (if f in m && Truthy(m[f]) then m[f] else Str(""))
  {
    var acts := BlurActions(cfg, s.values, f);
    CustomFieldMessage(cfg, s.values, f, Undefined);
    assert acts == [acts[0]] + [acts[1]];
    FormActions.RunAppend(s, [acts[0]], acts[1]);
  }

  /** A call the submit callback makes, while it runs, on the helpers it is
      handed. */
  datatype HelperCall =
    | CallSetValue(field: Field, value: Val)
    | CallSetError(field: Field, error: Val)

  function HelperAction(h: HelperCall): Action
  {
    match h
    case CallSetValue(f, v) => Action.SetValue(f, v)
    case CallSetError(f, e) => Action.SetError(f, e)
  }

  function HelperActions(calls: seq<HelperCall>): seq<Action>
  {
    seq(|calls|, i requires 0 <= i < |calls| => HelperAction(calls[i]))
  }

  /** What the submit callback does while it runs synchronously: the helper
      calls it makes, and whether it throws before returning. */
  datatype CallbackRun = CallbackRun(helperCalls: seq<HelperCall>, throwsSynchronously: bool)

  /** The outcome of `handleSubmit`. `Threw`: the callback threw synchronously
      and the exception escaped before a `finally` could be attached. */
  datatype SubmitResult = Blocked | Submitted | Threw

  /** How the value returned by the submit callback settles. */
  datatype Settlement = Resolved | Rejected

  /** What a submission that passed validation dispatches synchronously. */
  function BeginActions(run: CallbackRun): seq<Action>
  {
    [Action.SetIsSubmitting(true)] + HelperActions(run.helperCalls)
  }

  /** `acts` holds one SET_ERROR for each key of `keys`, in some order, each
      carrying the error `errs` holds for that key. */
  ghost predicate ErrorActions(acts: seq<Action>, errs: map<Field, Val>, keys: set<Field>)
  {
    && |acts| == |keys|
    && (forall i :: 0 <= i < |acts| ==>
          acts[i].SetError? && acts[i].field in keys && acts[i].field in errs && acts[i].error == errs[acts[i].field])
    && (forall i, j :: 0 <= i < j < |acts| ==> acts[i].field != acts[j].field)
  }

  /** `log'` extends `log` with one SET_ERROR for each key of `errs`. */
  ghost predicate ErrorsDispatched(log: seq<Action>, log': seq<Action>, errs: map<Field, Val>)
  {
    |log| <= |log'| && log'[..|log|] == log && ErrorActions(log'[|log|..], errs, errs.Keys)
  }

  /** Per-field actions (input, blur, the callback's helpers) never move the
      submitting flag: only SET_IS_SUBMITTING and RESET do. */
  lemma {:induction false} PerFieldKeepsFlag(s: FormState, acts: seq<Action>)
    requires forall i :: 0 <= i < |acts| ==> acts[i].PerField()
    ensures FormActions.Run(s, acts).isSubmitting == s.isSubmitting
    decreases |acts|
  {
    FormActions.RunFlag(s, acts);
    if acts != [] {
      var init := acts[..|acts| - 1];
      PerFieldKeepsFlag(s, init);
      FormActions.RunFlag(s, init);
    }
  }

  /** The part of `errs` whose keys lie in `keys`. */
  function Only(errs: map<Field, Val>, keys: set<Field>): map<Field, Val>
  {
    map k | k in keys && k in errs :: errs[k]
  }

  lemma MergeStep(errors: map<Field, Val>, errs: map<Field, Val>, done: set<Field>, k: Field)
    requires k in errs
    ensures errors + Only(errs, done + {k}) == (errors + Only(errs, done))[k := errs[k]]
  {
  }

  lemma OnlyAll(errs: map<Field, Val>)
    ensures Only(errs, errs.Keys) == errs
  {
  }

  /** The order in which a blocked submission dispatches its errors: one
      SET_ERROR per key of `errs`, keys taken in some order. */
  method ErrorActionsFor(errs: map<Field, Val>) returns (acts: seq<Action>)
    ensures ErrorActions(acts, errs, errs.Keys)
  {
    acts := [];
    var remaining := errs.Keys;
    ghost var done: set<Field> := {};
    while remaining != {}
      invariant remaining !! done && remaining + done == errs.Keys
      invariant ErrorActions(acts, errs, done)
      decreases remaining
    {
      var k :| k in remaining;
      acts := acts + [Action.SetError(k, errs[k])];
      remaining := remaining - {k};
      done := done + {k};
    }
  }

  /** Dispatching such a list, in whatever order, merges `errs` into the
      errors and changes nothing else. */
  lemma {:induction false} RunErrorActions(s: FormState, acts: seq<Action>, errs: map<Field, Val>, keys: set<Field>)
    requires ErrorActions(acts, errs, keys)
    ensures FormActions.Run(s, acts) == s.(errors := s.errors + Only(errs, keys))
    decreases |acts|
  {
    if acts == [] {
      assert keys == {};
      assert Only(errs, keys) == map[];
      assert s.errors + map[] == s.errors;
    } else {
      var init, last := acts[..|acts| - 1], acts[|acts| - 1];
      var f := last.field;
      assert acts == init + [last];
      assert f in keys && f in errs && last == Action.SetError(f, errs[f]);
      var rest := keys - {f};
      assert |rest| == |keys| - 1;
      forall i | 0 <= i < |init| ensures init[i].field in rest {
        assert init[i] == acts[i];
      }
      assert ErrorActions(init, errs, rest);
      RunErrorActions(s, init, errs, rest);
      FormActions.RunAppend(s, init, last);
      assert rest + {f} == keys;
      MergeStep(s.errors, errs, rest, f);
    }
  }

  /** Once an input makes the whole value set pass the schema, the check
      throws after the new value is stored: the field's old error is neither
      set nor cleared. */
  lemma PassingInputKeepsStaleError(cfg: Config, s: FormState, f: Field, value: string)
    requires cfg.schema.Some? && cfg.schema.value(SchemaCandidate(s.values, f, Str(value))).None?
    ensures var r := FormActions.Run(s, InputActions(cfg, s.values, f, value));
      r.errors == s.errors && r.values == Some(Spread(s.values)[f := Str(value)])
  {
  }

  /** Without a validator a keystroke stores the value and dispatches
      nothing else. */
  lemma NoValidatorInputOnlyStores(cfg: Config, s: FormState, f: Field, value: string)
    requires !cfg.HasValidator()
    ensures FormActions.Run(s, InputActions(cfg, s.values, f, value)) == Reduce(s, Action.SetValue(f, Str(value)))
  {
  }

  /** Once a submission has begun, the flag stays up through any per-field
      activity (the callback's helpers, input, blur) and drops at the
      `finally`. */
  lemma {:induction false} SubmittingUntilSettled(s: FormState, run: CallbackRun, between: seq<Action>)
    requires forall i :: 0 <= i < |between| ==> between[i].PerField()
    ensures FormActions.Run(s, BeginActions(run) + between).isSubmitting
    ensures !FormActions.Run(s, BeginActions(run) + between + [Action.SetIsSubmitting(false)]).isSubmitting
  {
    var begin := [Action.SetIsSubmitting(true)];
    var rest := HelperActions(run.helperCalls) + between;
    assert BeginActions(run) + between == begin + rest;
    forall i | 0 <= i < |rest| ensures rest[i].PerField() {
      if i >= |HelperActions(run.helperCalls)| {
        assert rest[i] == between[i - |HelperActions(run.helperCalls)|];
      }
    }
    FormActions.RunConcat(s, begin, rest);
    PerFieldKeepsFlag(Reduce(s, Action.SetIsSubmitting(true)), rest);
    FormActions.RunAppend(s, BeginActions(run) + between, Action.SetIsSubmitting(false));
  }

  class Controller {
    const config: Config
    /** The reducer's state cell. */
    var state: FormState
    /** Every action dispatched so far, oldest first. */
    var log: seq<Action>
    /** `finally` callbacks attached to submissions and not yet run. */
    var pending: nat
    /** The `values` argument of every call of the submit callback, oldest first. */
    var submissions: seq<Record>

    /** Every change of state has gone through the reducer. */
    ghost predicate Valid()
      reads this
    {
      state == FormActions.Run(Initial(config.initialValues), log)
    }

    constructor (config: Config)
      ensures Valid() && this.config == config
      ensures state.values == (if config.initialValues.Some? then config.initialValues else Some(map[]))
      ensures state.errors == map[] && state.touched == map[] && !state.isSubmitting
      ensures log == [] && pending == 0 && submissions == []
    {
      this.config := config;
      state := Initial(config.initialValues);
      log := [];
      pending := 0;
      submissions := [];
    }

    /** `setValue(field, value)`: no validation. */
    method SetFormValue(f: Field, v: Val)
      requires Valid()
      modifies this
      ensures Valid()
      ensures log == old(log) + [Action.SetValue(f, v)]
      ensures state == Reduce(old(state), Action.SetValue(f, v))
      ensures pending == old(pending) && submissions == old(submissions)
    {
      log := FormActions.SetValue(log, f, v);
      state := Reduce(state, Action.SetValue(f, v));
      FormActions.DispatchReduces(Initial(config.initialValues), old(log), log, Action.SetValue(f, v));
    }

    /** `setError(field, error)`: the error is passed through as given. */
    method SetFormError(f: Field, e: Val)
      requires Valid()
      modifies this
      ensures Valid()
      ensures log == old(log) + [Action.SetError(f, e)]
      ensures state == Reduce(old(state), Action.SetError(f, e))
      ensures pending == old(pending) && submissions == old(submissions)
    {
      log := FormActions.SetError(log, f, e);
      state := Reduce(state, Action.SetError(f, e));
      FormActions.DispatchReduces(Initial(config.initialValues), old(log), log, Action.SetError(f, e));
    }

    /** `handleInput(f)` for an event whose `detail.value` is `value`. */
    method HandleInput(f: Field, value: string) returns (threw: bool)
      requires Valid()
      modifies this
      ensures Valid()
      ensures log == old(log) + InputActions(config, old(state).values, f, value)
      ensures state == FormActions.Run(old(state), InputActions(config, old(state).values, f, value))
      ensures threw <==> ValidateField(config, old(state).values, f, Str(value)).Throws?
      ensures pending == old(pending) && submissions == old(submissions)
    {
      var snapshot := state.values;
      SetFormValue(f, Str(value));
      var check := ValidateField(config, snapshot, f, Str(value));
      threw := check.Throws?;
      if check.Report? {
        SetFormError(f, check.error);
      }
      FormActions.RunConcat(old(state), [Action.SetValue(f, Str(value))], CheckActions(check, f));
    }

    /** `handleBlur(f)`. */
    method HandleBlur(f: Field) returns (threw: bool)
      requires Valid()
      modifies this
      ensures Valid()
      ensures log == old(log) + BlurActions(config, old(state).values, f)
      ensures state == FormActions.Run(old(state), BlurActions(config, old(state).values, f))
      ensures threw <==> ValidateField(config, old(state).values, f, Undefined).Throws?
      ensures pending == old(pending) && submissions == old(submissions)
    {
      var snapshot := state.values;
      log := FormActions.SetTouched(log, f, true);
      state := Reduce(state, Action.SetTouched(f, true));
      FormActions.DispatchReduces(Initial(config.initialValues), old(log), log, Action.SetTouched(f, true));
      var check := ValidateField(config, snapshot, f, Undefined);
      threw := check.Throws?;
      if check.Report? {
        SetFormError(f, check.error);
      }
      FormActions.RunConcat(old(state), [Action.SetTouched(f, true)], CheckActions(check, f));
    }

    /** The error-dispatching loop of a blocked submission: one SET_ERROR per
        key of `errs`. */
    method DispatchErrors(errs: map<Field, Val>)
      requires Valid()
      modifies this
      ensures Valid()
      ensures state == old(state).(errors := old(state).errors + errs)
      ensures ErrorsDispatched(old(log), log, errs)
      ensures pending == old(pending) && submissions == old(submissions)
    {
      var acts := ErrorActionsFor(errs);
      var i := 0;
      while i < |acts|
        invariant 0 <= i <= |acts|
        invariant Valid()
        invariant log == old(log) + acts[..i]
        invariant state == FormActions.Run(old(state), acts[..i])
        invariant pending == old(pending) && submissions == old(submissions)
      {
        SetFormError(acts[i].field, acts[i].error);
        assert acts[..i + 1] == acts[..i] + [acts[i]];
        FormActions.RunAppend(old(state), acts[..i], acts[i]);
        i := i + 1;
      }
      assert acts[..i] == acts;
      assert log[|old(log)|..] == acts;
      RunErrorActions(old(state), acts, errs, errs.Keys);
      OnlyAll(errs);
    }

    /** A submission that passed validation: the flag goes up, the callback
        runs with the snapshot of values, and a `finally` is attached to its
        result unless it threw first. */
    method BeginSubmission(snapshot: Record, run: CallbackRun) returns (result: SubmitResult)
      requires Valid()
      modifies this
      ensures Valid()
      ensures result == (if run.throwsSynchronously then Threw else Submitted)
      ensures log == old(log) + BeginActions(run)
      ensures state == FormActions.Run(old(state), BeginActions(run))
      ensures state.isSubmitting
      ensures submissions == old(submissions) + [snapshot]
      ensures pending == old(pending) + (if run.throwsSynchronously then 0 else 1)
    {
      log := FormActions.SetIsSubmitting(log, true);
      state := Reduce(state, Action.SetIsSubmitting(true));
      FormActions.DispatchReduces(Initial(config.initialValues), old(log), log, Action.SetIsSubmitting(true));
      submissions := submissions + [snapshot];
      var calls := run.helperCalls;
      var i := 0;
      while i < |calls|
        invariant 0 <= i <= |calls|
        invariant Valid()
        invariant log == old(log) + [Action.SetIsSubmitting(true)] + HelperActions(calls[..i])
        invariant state == FormActions.Run(old(state), [Action.SetIsSubmitting(true)] + HelperActions(calls[..i]))
        invariant state.isSubmitting
        invariant pending == old(pending) && submissions == old(submissions) + [snapshot]
      {
        ghost var done := [Action.SetIsSubmitting(true)] + HelperActions(calls[..i]);
        match calls[i] {
          case CallSetValue(g, v) => SetFormValue(g, v);
          case CallSetError(g, e) => SetFormError(g, e);
        }
        assert HelperActions(calls[..i + 1]) == HelperActions(calls[..i]) + [HelperAction(calls[i])];
        assert [Action.SetIsSubmitting(true)] + HelperActions(calls[..i + 1]) == done + [HelperAction(calls[i])];
        FormActions.RunAppend(old(state), done, HelperAction(calls[i]));
        i := i + 1;
      }
      assert calls[..i] == calls;
      if run.throwsSynchronously {
        result := Threw;
      } else {
        pending := pending + 1;
        result := Submitted;
      }
    }

    /** `handleSubmit()`, up to the point where it returns. Nothing checks
        `isSubmitting` first: a submission already in flight does not stop
        another one. */
    method HandleSubmit(run: CallbackRun) returns (result: SubmitResult)
      requires Valid()
      modifies this
      ensures Valid()
      ensures var blocked := SubmitErrors(config, old(state).values);
        blocked.Some? ==>
          && result == Blocked
          && state == old(state).(errors := old(state).errors + blocked.value)
          && ErrorsDispatched(old(log), log, blocked.value)
          && pending == old(pending) && submissions == old(submissions)
      ensures SubmitErrors(config, old(state).values).None? ==>
          && result == (if run.throwsSynchronously then Threw else Submitted)
          && log == old(log) + BeginActions(run)
          && state == FormActions.Run(old(state), BeginActions(run))
          && state.isSubmitting
          && submissions == old(submissions) + [old(state).values]
          && pending == old(pending) + (if run.throwsSynchronously then 0 else 1)
    {
      var snapshot := state.values;
      var blocked := SubmitErrors(config, snapshot);
      if blocked.Some? {
        DispatchErrors(blocked.value);
        result := Blocked;
      } else {
        result := BeginSubmission(snapshot, run);
      }
    }

    /** The `finally` attached to a submission runs once the callback's
        result settles, whichever way. `rejects` says whether the promise
        `finally` returns rejects in turn; `handleSubmit` does not return that
        promise, so the rejection reaches no caller and is left unhandled. */
    method Settle(outcome: Settlement) returns (rejects: bool)
      requires Valid() && pending > 0
      modifies this
      ensures Valid()
      ensures log == FormActions.SetIsSubmitting(old(log), false)
      ensures state == old(state).(isSubmitting := false)
      ensures rejects <==> outcome == Rejected
      ensures pending == old(pending) - 1 && submissions == old(submissions)
    {
      log := FormActions.SetIsSubmitting(log, false);
      state := Reduce(state, Action.SetIsSubmitting(false));
      FormActions.DispatchReduces(Initial(config.initialValues), old(log), log, Action.SetIsSubmitting(false));
      pending := pending - 1;
      rejects := outcome == Rejected;
    }

    /** `resetForm()`: back to the configured initial values, as given, never
        the current ones. */
    method ResetForm()
      requires Valid()
      modifies this
      ensures Valid()
      ensures log == FormActions.Reset(old(log), config.initialValues)
      ensures state == FormState(config.initialValues, map[], map[], false)
      ensures pending == old(pending) && submissions == old(submissions)
    {
      log := FormActions.Reset(log, config.initialValues);
      state := Reduce(state, Action.Reset(config.initialValues));
      FormActions.DispatchReduces(Initial(config.initialValues), old(log), log, Action.Reset(config.initialValues));
    }
  }

  /** Nothing serialises submissions: when a second one begins before the
      first settles, the first `finally` lowers the flag although the second
      is still in flight. */
  method OverlappingSubmitsDropFlagEarly(c: Controller, first: CallbackRun, second: CallbackRun, outcome: Settlement)
    returns (r1: SubmitResult, r2: SubmitResult)
    requires c.Valid()
    modifies c
    ensures c.Valid()
    ensures !c.config.HasValidator() && !first.throwsSynchronously && !second.throwsSynchronously ==>
      r1 == Submitted && r2 == Submitted
    ensures r1 == Submitted && r2 == Submitted ==>
      && !c.state.isSubmitting
      && c.pending == old(c.pending) + 1
      && |c.submissions| == |old(c.submissions)| + 2
  {
    r1 := c.HandleSubmit(first);
    r2 := c.HandleSubmit(second);
    if r1 == Submitted && r2 == Submitted {
      var rejects := c.Settle(outcome);
    }
  }
}

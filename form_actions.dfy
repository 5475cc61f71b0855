/** The action factories (src/reducers/formActions.ts). Each one hands exactly
    one action to `dispatch`; dispatching is modelled as appending to the log of
    dispatched actions, and the store's state is that log folded through
    `Reduce`, in order. */
module FormActions {
  import opened JsValues
  import opened FormReducer

  /** `log'` is `log` with exactly the action `a` dispatched after it. */
  ghost predicate DispatchedOne(log: seq<Action>, log': seq<Action>, a: Action)
  {
    |log'| == |log| + 1 && log'[..|log|] == log && log'[|log|] == a
  }

  /** The store's state once the reducer has applied every action of `log`
      to `s`, first to last. */
  function Run(s: FormState, log: seq<Action>): FormState
    decreases |log|
  {
    if log == [] then s else Run(Reduce(s, log[0]), log[1..])
  }

  function SetIsSubmitting(log: seq<Action>, isSubmitting: bool): (log': seq<Action>)
    ensures DispatchedOne(log, log', Action.SetIsSubmitting(isSubmitting))
  {
    log + [Action.SetIsSubmitting(isSubmitting)]
  }

  function SetValue(log: seq<Action>, field: Field, value: Val): (log': seq<Action>)
    ensures DispatchedOne(log, log', Action.SetValue(field, value))
  {
    log + [Action.SetValue(field, value)]
  }

  /** The error is untyped and is passed through as given. */
  function SetError(log: seq<Action>, field: Field, error: Val): (log': seq<Action>)
    ensures DispatchedOne(log, log', Action.SetError(field, error))
  {
    log + [Action.SetError(field, error)]
  }

  function SetTouched(log: seq<Action>, field: Field, touched: bool): (log': seq<Action>)
    ensures DispatchedOne(log, log', Action.SetTouched(field, touched))
  {
    log + [Action.SetTouched(field, touched)]
  }

  /** The initial values are passed through as given, `undefined` included. */
  function Reset(log: seq<Action>, initialValues: Record): (log': seq<Action>)
    ensures DispatchedOne(log, log', Action.Reset(initialValues))
  {
    log + [Action.Reset(initialValues)]
  }

  /** Dispatching one more action reduces it into the state the log had reached. */
  lemma {:induction false} RunAppend(s: FormState, log: seq<Action>, a: Action)
    ensures Run(s, log + [a]) == Reduce(Run(s, log), a)
    decreases |log|
  {
    if log != [] {
      assert (log + [a])[0] == log[0];
      assert (log + [a])[1..] == log[1..] + [a];
      RunAppend(Reduce(s, log[0]), log[1..], a);
    }
  }

  lemma {:induction false} RunConcat(s: FormState, log: seq<Action>, more: seq<Action>)
    ensures Run(s, log + more) == Run(Run(s, log), more)
    decreases |more|
  {
    if more != [] {
      var init, last := more[..|more| - 1], more[|more| - 1];
      assert more == init + [last];
      assert log + more == (log + init) + [last];
      RunConcat(s, log, init);
      RunAppend(s, log + init, last);
      RunAppend(Run(s, log), init, last);
    } else {
      assert log + more == log;
    }
  }

  /** Whatever a factory dispatched, the store reduces it into the state it had. */
  lemma DispatchReduces(s: FormState, log: seq<Action>, log': seq<Action>, a: Action)
    requires DispatchedOne(log, log', a)
    ensures Run(s, log') == Reduce(Run(s, log), a)
  {
    assert log' == log + [a];
    RunAppend(s, log, a);
  }

  /** The value carried by the last SET_VALUE for `f` in `log`, if there is one. */
  function LastValue(log: seq<Action>, f: Field): Option<Val>
    decreases |log|
  {
    if log == [] then None
    else if log[|log| - 1].SetValue? && log[|log| - 1].field == f then Some(log[|log| - 1].value)
    else LastValue(log[..|log| - 1], f)
  }

  ghost predicate OnlySetValues(log: seq<Action>)
  {
    forall i :: 0 <= i < |log| ==> log[i].SetValue?
  }

  /** After a run of SET_VALUE actions each field holds the last value written
      to it; a field never written keeps what it had, and errors, touched and
      the submitting flag are untouched. */
  lemma {:induction false} SetValuesLastWins(s: FormState, log: seq<Action>, f: Field)
    requires OnlySetValues(log)
    ensures var r := Run(s, log);
      && r.errors == s.errors && r.touched == s.touched && r.isSubmitting == s.isSubmitting
      && (LastValue(log, f).Some? ==>
            r.values.Some? && f in r.values.value && r.values.value[f] == LastValue(log, f).value)
      && (LastValue(log, f).None? ==>
            (f in Spread(r.values) <==> f in Spread(s.values))
            && (f in Spread(s.values) ==> Spread(r.values)[f] == Spread(s.values)[f]))
    decreases |log|
  {
    if log != [] {
      var init, last := log[..|log| - 1], log[|log| - 1];
      assert log == init + [last];
      RunAppend(s, init, last);
      SetValuesLastWins(s, init, f);
    }
  }

  /** The submitting flag the log leaves behind: the one carried by the last
      SET_IS_SUBMITTING or RESET (which clears it), or `b` if there is none. */
  function LastFlag(log: seq<Action>, b: bool): bool
    decreases |log|
  {
    if log == [] then b
    else match log[|log| - 1]
      case SetIsSubmitting(flag) => flag
      case Reset(_) => false
      case _ => LastFlag(log[..|log| - 1], b)
  }

  lemma {:induction false} RunFlag(s: FormState, log: seq<Action>)
    ensures Run(s, log).isSubmitting == LastFlag(log, s.isSubmitting)
    decreases |log|
  {
    if log != [] {
      var init, last := log[..|log| - 1], log[|log| - 1];
      assert log == init + [last];
      RunAppend(s, init, last);
      RunFlag(s, init);
    }
  }
}

/** The pure transition function of the form store and its data model
    (src/reducers/formReducer.tsx). */
module FormReducer {
  import opened JsValues

  type Field = string

  /** The `values` object. `None` stands for `undefined`, which is what a RESET
      carrying no initial values leaves behind. */
  type Record = Option<map<Field, Val>>

  datatype FormState = FormState(
    values: Record,
    errors: map<Field, Val>,
    touched: map<Field, bool>,
    isSubmitting: bool)

  datatype Action =
    | SetValue(field: Field, value: Val)
    | SetError(field: Field, error: Val)
    | SetTouched(field: Field, touched: bool)
    | SetIsSubmitting(isSubmitting: bool)
    | Reset(initialValues: Record)
      // an action object whose `type` is none of the five kinds
    | Unrecognized(tag: int)
  {
    /** The kinds that address a single field. */
    predicate PerField()
    {
      SetValue? || SetError? || SetTouched?
    }
  }

  /** `{...r}`: spreading `undefined` yields the empty object. */
  function Spread(r: Record): map<Field, Val>
  {
    if r.Some? then r.value else map[]
  }

  function Reduce(s: FormState, a: Action): FormState
  {
    match a
    case SetValue(f, v) => s.(values := Some(Spread(s.values)[f := v]))
    case SetError(f, e) => s.(errors := s.errors[f := e])
    case SetTouched(f, t) => s.(touched := s.touched[f := t])
    case SetIsSubmitting(b) => s.(isSubmitting := b)
    case Reset(iv) => FormState(iv, map[], map[], false)
    case Unrecognized(_) => s
  }

  /** `m` and `m'` hold the same keys and entries, except possibly at `k`. */
  ghost predicate SameExcept<V>(m: map<Field, V>, m': map<Field, V>, k: Field)
  {
    forall g :: g != k ==> (g in m <==> g in m') && (g in m ==> m[g] == m'[g])
  }

  /** Two actions that write the same slot of the same field. */
  predicate SameSlot(a: Action, b: Action)
  {
    && ((a.SetValue? && b.SetValue?) || (a.SetError? && b.SetError?) || (a.SetTouched? && b.SetTouched?))
    && a.field == b.field
  }

  lemma SetValueOnlyChangesField(s: FormState, f: Field, v: Val)
    ensures var r := Reduce(s, SetValue(f, v));
      && r.values.Some? && f in r.values.value && r.values.value[f] == v
      && SameExcept(Spread(s.values), r.values.value, f)
      && r.errors == s.errors && r.touched == s.touched && r.isSubmitting == s.isSubmitting
  {
  }

  lemma SetErrorOnlyChangesField(s: FormState, f: Field, e: Val)
    ensures var r := Reduce(s, SetError(f, e));
      && f in r.errors && r.errors[f] == e
      && SameExcept(s.errors, r.errors, f)
      && r.values == s.values && r.touched == s.touched && r.isSubmitting == s.isSubmitting
  {
  }

  lemma SetTouchedOnlyChangesField(s: FormState, f: Field, t: bool)
    ensures var r := Reduce(s, SetTouched(f, t));
      && f in r.touched && r.touched[f] == t
      && SameExcept(s.touched, r.touched, f)
      && r.values == s.values && r.errors == s.errors && r.isSubmitting == s.isSubmitting
  {
  }

  lemma SetIsSubmittingOnlyChangesFlag(s: FormState, b: bool)
    ensures var r := Reduce(s, SetIsSubmitting(b));
      && r.isSubmitting == b
      && r.values == s.values && r.errors == s.errors && r.touched == s.touched
  {
  }

  /** RESET forgets the prior state entirely. */
  lemma ResetForgetsState(s: FormState, s': FormState, iv: Record)
    ensures Reduce(s, Reset(iv)) == Reduce(s', Reset(iv))
    ensures var r := Reduce(s, Reset(iv));
      r.values == iv && r.errors == map[] && r.touched == map[] && !r.isSubmitting
  {
  }

  lemma UnrecognizedIsNoOp(s: FormState, tag: int)
    ensures Reduce(s, Unrecognized(tag)) == s
  {
  }

  /** A second write to the same slot of the same field overrides the first. */
  lemma LastWriteWins(s: FormState, a: Action, b: Action)
    requires SameSlot(a, b)
    ensures Reduce(Reduce(s, a), b) == Reduce(s, b)
  {
    var f := a.field;
    match a
    case SetValue(_, v) =>
      assert Spread(Reduce(s, a).values)[f := b.value] == Spread(s.values)[f := b.value];
    case SetError(_, e) =>
      assert s.errors[f := e][f := b.error] == s.errors[f := b.error];
    case SetTouched(_, t) =>
      assert s.touched[f := t][f := b.touched] == s.touched[f := b.touched];
  }

  /** Applying any action twice is the same as applying it once. */
  lemma ReduceIdempotent(s: FormState, a: Action)
    ensures Reduce(Reduce(s, a), a) == Reduce(s, a)
  {
    if a.PerField() {
      LastWriteWins(s, a, a);
    }
  }

  /** Per-field actions on different fields commute. */
  lemma DifferentFieldsCommute(s: FormState, a: Action, b: Action)
    requires a.PerField() && b.PerField() && a.field != b.field
    ensures Reduce(Reduce(s, a), b) == Reduce(Reduce(s, b), a)
  {
    var m := Spread(s.values);
    if a.SetValue? && b.SetValue? {
      assert m[a.field := a.value][b.field := b.value] == m[b.field := b.value][a.field := a.value];
    } else if a.SetError? && b.SetError? {
      assert s.errors[a.field := a.error][b.field := b.error] == s.errors[b.field := b.error][a.field := a.error];
    } else if a.SetTouched? && b.SetTouched? {
      assert s.touched[a.field := a.touched][b.field := b.touched] == s.touched[b.field := b.touched][a.field := a.touched];
    }
  }
}

/** The per-field accessor (src/hooks/useField.tsx): a read projection of the
    controller's state onto one field name, with `setValue` and `setError`
    bound to that name. It keeps no state of its own. */
module UseField {
  import opened JsValues
  import opened FormReducer
  import opened FormController

  /** What the accessor reads for one field. An absent entry reads as
      `undefined`. */
  datatype FieldView = FieldView(value: Val, error: Val, touched: Val)

  /** `useField(name)` without its setters. Reading `values[name]` throws when
      `values` is `undefined`; that is the `None` case. */
  function UseField(s: FormState, name: Field): (v: Option<FieldView>)
    ensures v.Some? <==> s.values.Some?
    ensures v.Some? ==> v.value.value == Get(s.values.value, name)
    ensures v.Some? ==> v.value.error == Get(s.errors, name)
    ensures v.Some? ==> (name in s.touched <==> v.value.touched != Undefined)
    ensures v.Some? && name in s.touched ==> v.value.touched == Bool(s.touched[name])
  {
    match s.values
    case None => None
    case Some(values) =>
      Some(FieldView(Get(values, name), Get(s.errors, name),
                     if name in s.touched then Bool(s.touched[name]) else Undefined))
  }

  /** The accessor's `setValue(v)`: exactly the controller's `setValue(name, v)`. */
  method SetValue(c: Controller, name: Field, v: Val)
    requires c.Valid()
    modifies c
    ensures c.Valid()
    ensures c.log == old(c.log) + [Action.SetValue(name, v)]
    ensures c.state == Reduce(old(c.state), Action.SetValue(name, v))
    ensures c.pending == old(c.pending) && c.submissions == old(c.submissions)
  {
    c.SetFormValue(name, v);
  }

  /** The accessor's `setError(e)`: exactly the controller's `setError(name, e)`. */
  method SetError(c: Controller, name: Field, e: Val)
    requires c.Valid()
    modifies c
    ensures c.Valid()
    ensures c.log == old(c.log) + [Action.SetError(name, e)]
    ensures c.state == Reduce(old(c.state), Action.SetError(name, e))
    ensures c.pending == old(c.pending) && c.submissions == old(c.submissions)
  {
    c.SetFormError(name, e);
  }

  /** While `values` is defined, the accessor's setters leave every other
      field's view as it was. */
  lemma SettersKeepOtherFields(s: FormState, name: Field, g: Field, v: Val, e: Val)
    requires g != name && UseField(s, g).Some?
    ensures UseField(Reduce(s, Action.SetValue(name, v)), g) == UseField(s, g)
    ensures UseField(Reduce(s, Action.SetError(name, e)), g) == UseField(s, g)
  {
  }

  /** When `values` is undefined (after a reset without initial values) every
      read throws, but a bound `setValue` spreads `undefined` into `{}`: the
      form can be read again, with every other field `undefined`. */
  lemma SetValueRevivesValues(s: FormState, name: Field, g: Field, v: Val)
    requires s.values.None? && g != name
    ensures UseField(s, g).None?
    ensures UseField(Reduce(s, Action.SetValue(name, v)), g).Some?
    ensures UseField(Reduce(s, Action.SetValue(name, v)), g).value.value == Undefined
  {
  }

  /** After the accessor's `setValue(v)` it reads back `v`. */
  lemma SetValueReadsBack(s: FormState, name: Field, v: Val)
    ensures UseField(Reduce(s, Action.SetValue(name, v)), name).Some?
    ensures UseField(Reduce(s, Action.SetValue(name, v)), name).value.value == v
  {
  }

  /** Without initial values a fresh form reads every field as `undefined`,
      but after `resetForm` `values` itself is `undefined` and every read
      throws. */
  lemma ResetWithoutInitialValues(s: FormState, name: Field)
    ensures UseField(Initial(None), name) == Some(FieldView(Undefined, Undefined, Undefined))
    ensures UseField(Reduce(s, Action.Reset(None)), name) == None
  {
  }
}

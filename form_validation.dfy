/** The validation half of the form controller (src/hooks/useForm.tsx): the
    single-field check run on input and blur, and the error mapping computed on
    submit. The two validators are abstract functions. */
module FormValidation {
  import opened JsValues
  import opened FormReducer

  /** One entry of a schema's formatted error object. A bare array of messages
      (such as the top-level `_errors` list), or an object whose `_errors`
      lists the messages reported for one field. */
  datatype Entry =
    | ErrorList(messages: seq<string>)
    | FieldIssues(errors: seq<string>)

  /** The formatted error object of a failed schema parse, keyed as it is. */
  datatype Formatted = Formatted(entries: map<string, Entry>)

  /** The controller's validation configuration. `schema` gives `None` when
      the value set parses (so the parse carries no error to format). */
  datatype Config = Config(
    initialValues: Record,
    validate: Option<Record -> map<Field, Val>>,
    schema: Option<Record -> Option<Formatted>>)
  {
    predicate HasValidator()
    {
      schema.Some? || validate.Some?
    }
  }

  /** What a single-field check ends in. `Throws` is the TypeError raised when
      a formatted-error lookup dereferences `undefined`. */
  datatype FieldCheck =
    | NoCheck
    | Report(error: Val)
    | Throws

  /** `_errors[0]`: `undefined` when the list is empty. */
  function FirstMessage(messages: seq<string>): Val
  {
    if |messages| > 0 then Str(messages[0]) else Undefined
  }

  /** The value set handed to the schema: the snapshot with the field
      overridden, unless no value was given, in which case the snapshot as is. */
  function SchemaCandidate(snapshot: Record, f: Field, value: Val): Record
  {
    if value != Undefined then Some(Spread(snapshot)[f := value]) else snapshot
  }

  /** The value set handed to the custom validator: always the snapshot with
      the field overridden, even by `undefined`. */
  function CustomCandidate(snapshot: Record, f: Field, value: Val): map<Field, Val>
  {
    Spread(snapshot)[f := value]
  }

  /** `validateField(field, value)`: the error the field is to receive. */
  function ValidateField(cfg: Config, snapshot: Record, f: Field, value: Val): (c: FieldCheck)
    ensures c.NoCheck? <==> !cfg.HasValidator()
    ensures c.Report? ==> Truthy(c.error) || c.error == Str("")
    ensures cfg.schema.Some? && cfg.schema.value(SchemaCandidate(snapshot, f, value)).None? ==> c.Throws?
    ensures cfg.schema.None? ==> !c.Throws?
  {
    if cfg.schema.Some? then
      match cfg.schema.value(SchemaCandidate(snapshot, f, value))
      case None => Throws
      case Some(formatted) =>
        if f !in formatted.entries then Report(Str(""))
        else match formatted.entries[f]
          case ErrorList(_) => Throws
          case FieldIssues(errors) => Report(Or(FirstMessage(errors), Str("")))
    else if cfg.validate.Some? then
      Report(Or(Get(cfg.validate.value(Some(CustomCandidate(snapshot, f, value))), f), Str("")))
    else
      NoCheck
  }

  /** With a schema, a failed parse reports the field's first message, or `''`
      when the field has no message. A field named like the top-level
      message list makes the lookup throw. */
  lemma SchemaFieldMessage(cfg: Config, snapshot: Record, f: Field, value: Val, formatted: Formatted)
    requires cfg.schema.Some? && cfg.schema.value(SchemaCandidate(snapshot, f, value)) == Some(formatted)
    ensures f !in formatted.entries ==> ValidateField(cfg, snapshot, f, value) == Report(Str(""))
    ensures f in formatted.entries && formatted.entries[f].FieldIssues? ==>
      var errors := formatted.entries[f].errors;
      ValidateField(cfg, snapshot, f, value)
        == Report(if |errors| > 0 && errors[0] != "" then Str(errors[0]) else Str(""))
    ensures f in formatted.entries && formatted.entries[f].ErrorList? ==>
      ValidateField(cfg, snapshot, f, value).Throws?
  {
  }

  /** Without a schema, the custom validator is run on the snapshot with the
      field overridden, and the field receives what it returns for that field
      when truthy, `''` otherwise. */
  lemma CustomFieldMessage(cfg: Config, snapshot: Record, f: Field, value: Val)
    requires cfg.schema.None? && cfg.validate.Some?
    ensures var m := cfg.validate.value(Some(CustomCandidate(snapshot, f, value)));
      ValidateField(cfg, snapshot, f, value) == Report(if f in m && Truthy(m[f]) then m[f] else Str(""))
  {
  }

  /** The value sets the two validators see. A given value overrides the
      field for the schema; with no value given the schema sees the snapshot
      unmodified. The custom validator always sees the field overridden, by
      `undefined` when no value is given. */
  lemma ValidationCandidates(snapshot: Record, f: Field, value: Val)
    ensures value == Undefined ==> SchemaCandidate(snapshot, f, value) == snapshot
    ensures value != Undefined ==>
      var c := SchemaCandidate(snapshot, f, value);
      c.Some? && f in c.value && c.value[f] == value && SameExcept(Spread(snapshot), c.value, f)
    ensures var c := CustomCandidate(snapshot, f, value);
      f in c && c[f] == value && SameExcept(Spread(snapshot), c, f)
  {
  }

  /** The mapping `handleSubmit` dispatches as errors when it blocks the
      submission, or `None` when the submission goes ahead. */
  function SubmitErrors(cfg: Config, values: Record): (r: Option<map<Field, Val>>)
    ensures !cfg.HasValidator() ==> r.None?
    ensures cfg.schema.Some? ==> (r.Some? <==> cfg.schema.value(values).Some?)
    ensures cfg.schema.None? && cfg.validate.Some? ==>
      (r.Some? <==> |cfg.validate.value(values)| > 0)
  {
    if cfg.schema.Some? then
      match cfg.schema.value(values)
      case None => None
      case Some(formatted) =>
        Some(map k | k in formatted.entries && formatted.entries[k].FieldIssues?
                 :: FirstMessage(formatted.entries[k].errors))
    else if cfg.validate.Some? then
      var errors := cfg.validate.value(values);
      if |errors| > 0 then Some(map k | k in errors :: Or(errors[k], Str(""))) else None
    else
      None
  }

  /** A failed schema parse writes exactly the entries that carry `_errors`,
      each with its first message; the top-level list and fields the schema
      did not report are left alone. */
  lemma SchemaSubmitWritesReportedFields(cfg: Config, values: Record, formatted: Formatted, k: Field)
    requires cfg.schema.Some? && cfg.schema.value(values) == Some(formatted)
    ensures SubmitErrors(cfg, values).Some?
    ensures var errs := SubmitErrors(cfg, values).value;
      && (k in errs <==> k in formatted.entries && formatted.entries[k].FieldIssues?)
      && (k in errs ==> errs[k] == FirstMessage(formatted.entries[k].errors))
  {
  }

  /** Without a schema, a submit blocked by the custom validator writes every
      key it returned, each with its message when truthy and `''` otherwise. */
  lemma CustomSubmitMessages(cfg: Config, values: Record)
    requires cfg.schema.None? && cfg.validate.Some?
    ensures var errors := cfg.validate.value(values);
      SubmitErrors(cfg, values).Some? ==>
        var errs := SubmitErrors(cfg, values).value;
        && errs.Keys == errors.Keys
        && forall k :: k in errs ==> errs[k] == (if Truthy(errors[k]) then errors[k] else Str(""))
  {
  }

  /** The custom validator blocks on the number of keys it returns: a mapping
      whose every message is empty still blocks, and every field it names
      receives `''`. */
  lemma CustomSubmitBlocksOnKeys(cfg: Config, values: Record)
    requires cfg.schema.None? && cfg.validate.Some?
    requires var errors := cfg.validate.value(values);
      |errors| > 0 && forall k :: k in errors ==> !Truthy(errors[k])
    ensures SubmitErrors(cfg, values).Some?
    ensures var errs := SubmitErrors(cfg, values).value;
      errs.Keys == cfg.validate.value(values).Keys && forall k :: k in errs ==> errs[k] == Str("")
  {
    CustomSubmitMessages(cfg, values);
  }

  /** When a schema is configured the custom validator is never consulted. */
  lemma SchemaShadowsValidate(cfg: Config, other: Option<Record -> map<Field, Val>>,
                              snapshot: Record, f: Field, value: Val)
    requires cfg.schema.Some?
    ensures ValidateField(cfg.(validate := other), snapshot, f, value) == ValidateField(cfg, snapshot, f, value)
    ensures SubmitErrors(cfg.(validate := other), snapshot) == SubmitErrors(cfg, snapshot)
  {
  }
}

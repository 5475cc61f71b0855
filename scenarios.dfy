/** The demo form of the repository (src/tests/App.tsx) driven through the
    controller: two required text fields checked by a schema. */
module FormScenarios {
  import opened JsValues
  import opened FormReducer
  import opened FormValidation
  import opened FormController
  import FormActions

  /** The issue a required text field gets: its message when it holds the
      empty string, `Required` when it holds no string at all. */
  function RequiredIssue(v: Val, message: string): Option<Entry>
  {
    if v.Str? && v.s != "" then None
    else if v.Str? then Some(FieldIssues([message]))
    else Some(FieldIssues(["Required"]))
  }

  /** `z.object({login: z.string().nonempty('Enter login'),
      password: z.string().nonempty('Enter password')})`, as parse-and-format. */
  function LoginSchema(r: Record): Option<Formatted>
  {
    match r
    case None => Some(Formatted(map["_errors" := ErrorList(["Required"])]))
    case Some(m) =>
      var login := RequiredIssue(Get(m, "login"), "Enter login");
      var password := RequiredIssue(Get(m, "password"), "Enter password");
      if login.None? && password.None? then None
      else
        var top := map["_errors" := ErrorList([])];
        var withLogin := if login.Some? then top["login" := login.value] else top;
        Some(Formatted(if password.Some? then withLogin["password" := password.value] else withLogin))
  }

  const Login: Config := Config(None, None, Some(LoginSchema))

  /** Both fields empty: the submission is blocked, both messages are shown
      and the callback is not called. */
  method EmptySubmitIsBlocked()
  {
    var form := new Controller(Login);
    form.SetFormValue("login", Str(""));
    form.SetFormValue("password", Str(""));
    var values := map["login" := Str(""), "password" := Str("")];
    assert form.state.values == Some(values);
    assert LoginSchema(Some(values)) == Some(Formatted(map[
      "_errors" := ErrorList([]),
      "login" := FieldIssues(["Enter login"]),
      "password" := FieldIssues(["Enter password"])]));
    var r := form.HandleSubmit(CallbackRun([], false));
    assert r == Blocked;
    assert form.state.errors == map["login" := Str("Enter login"), "password" := Str("Enter password")];
    assert !form.state.isSubmitting && form.submissions == [];
  }

  /** Typing the last missing value makes the whole set pass the schema: the
      check throws after storing the value, and the field's old message stays. */
  method CompletingInputLeavesStaleError()
  {
    var form := new Controller(Login);
    form.SetFormValue("login", Str("a"));
    form.SetFormError("password", Str("Enter password"));
    assert LoginSchema(Some(map["login" := Str("a"), "password" := Str("b")])) == None;
    var threw := form.HandleInput("password", "b");
    assert threw && form.state.errors["password"] == Str("Enter password");
  }

  /** Both fields filled: the flag goes up, the callback gets the values, and
      the flag drops once its result settles. */
  method FilledSubmitRunsCallback()
  {
    var form := new Controller(Login);
    form.SetFormValue("login", Str("a"));
    form.SetFormValue("password", Str("b"));
    var values := map["login" := Str("a"), "password" := Str("b")];
    assert form.state.values == Some(values);
    assert LoginSchema(Some(values)) == None;
    var r := form.HandleSubmit(CallbackRun([], false));
    assert r == Submitted && form.state.isSubmitting;
    assert form.submissions == [Some(values)];
    var rejects := form.Settle(Resolved);
    assert !form.state.isSubmitting && form.pending == 0;
  }

  /** A custom validator written in the common style that lists every field
      and leaves `undefined` where there is no problem. */
  function LoginValidate(r: Record): map<Field, Val>
  {
    var login := Get(Spread(r), "login");
    map["login" := if login == Str("") then Str("Enter login") else Undefined]
  }

  /** With a filled login the validator reports no message, yet the key it
      returns blocks the submission and the field's error becomes ''. */
  method UndefinedMessageStillBlocks()
  {
    var form := new Controller(Config(None, Some(LoginValidate), None));
    form.SetFormValue("login", Str("a"));
    var r := form.HandleSubmit(CallbackRun([], false));
    assert r == Blocked && form.state.errors == map["login" := Str("")];
    assert !form.state.isSubmitting && form.submissions == [];
  }

  /** A second submit while the first is in flight runs the callback again;
      the first settling lowers the flag while the second is still pending. */
  method OverlappingSubmits()
  {
    var form := new Controller(Config(None, None, None));
    var r := form.HandleSubmit(CallbackRun([], false));
    r := form.HandleSubmit(CallbackRun([], false));
    assert r == Submitted && |form.submissions| == 2 && form.pending == 2;
    var rejects := form.Settle(Rejected);
    assert rejects && !form.state.isSubmitting && form.pending == 1;
  }

  /** A callback that throws before returning leaves the flag up with no
      `finally` pending to lower it. */
  method SynchronousThrowLeavesFlagUp()
  {
    var form := new Controller(Config(None, None, None));
    var run := CallbackRun([CallSetError("login", Str("Server down"))], true);
    var begin, helper := Action.SetIsSubmitting(true), Action.SetError("login", Str("Server down"));
    assert BeginActions(run) == [begin] + [helper];
    FormActions.RunAppend(form.state, [begin], helper);
    var r := form.HandleSubmit(run);
    assert r == Threw && form.state.isSubmitting && form.pending == 0;
    assert form.state.errors == map["login" := Str("Server down")];
  }
}

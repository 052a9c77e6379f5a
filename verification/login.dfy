/** The login window's submit handler (src/windows/login.js): the checks run
    before the bridge is called, in order, and the loading and error state
    of the form. */
module LoginForm {
  import opened Wrappers
  import opened Text
  import opened Js
  import Main

  const EmptyField := "Por favor, preencha todos os campos"
  const BadEmail := "Email inválido"
  const ShortPassword := "Senha deve ter no mínimo 6 caracteres"
  const LoginFailed := "Erro ao fazer login"
  const MinPasswordLength := 6

  /** What a submit does: show an error, or call the bridge's `login`. */
  datatype Check = ShowError(message: string) | CallLogin(email: string, password: string)

  /** The checks, first failure first: an empty field, an address the
      email expression rejects, a password under 6 characters. The email is
      trimmed; the password is taken as typed. */
  function CheckSubmit(emailField: string, password: string): (r: Check)
    ensures r.CallLogin? <==>
      !AllSpace(emailField) && password != "" && Main.EmailPattern(Trim(emailField)) && |password| >= MinPasswordLength
    ensures r.CallLogin? ==> r.email == Trim(emailField) && r.password == password
    ensures AllSpace(emailField) || password == "" ==> r == ShowError(EmptyField)
  {
    var email := Trim(emailField);
    if email == "" || password == "" then ShowError(EmptyField)
    else if !Main.EmailPattern(email) then ShowError(BadEmail)
    else if |password| < MinPasswordLength then ShowError(ShortPassword)
    else CallLogin(email, password)
  }

  /** The form: whether it shows the loading state, and the error shown. */
  datatype Form = Form(loading: bool, error: Option<string>)

  /** One submit. `bridge` is how the bridge's `login` settles when it is
      called: `None` on success, the thrown value otherwise. Reading
      `error.message` of a thrown `null` or `undefined` throws inside the
      handler, which then stops with the form still loading. */
  function Submit(form: Form, emailField: string, password: string, bridge: Option<Thrown>): (r: Form)
    ensures CheckSubmit(emailField, password).ShowError? ==>
      r == form.(error := Some(CheckSubmit(emailField, password).message))
    ensures CheckSubmit(emailField, password).CallLogin? && bridge.None? ==> r == Form(true, None)
    ensures CheckSubmit(emailField, password).CallLogin? && bridge == Some(Error("")) ==> r == Form(false, Some(LoginFailed))
  {
    match CheckSubmit(emailField, password)
    case ShowError(message) => form.(error := Some(message))
    case CallLogin(_, _) =>
      match bridge
      case None => Form(true, None)
      case Some(thrown) =>
        var message := match thrown
          case Error(m) => Ok(JsString(m))
          case NonError(v) => Get(v, "message");
        match message
        case Err(_) => Form(true, None)
        case Ok(m) => Form(false, Some(if Truthy(m) then ToJsString(m) else LoginFailed))
  }

  /** The form's checks are the main process's on the email and weaker on
      the password: every address the form passes within 255 characters
      passes the main process's check. */
  lemma FormEmailPassesMain(emailField: string, password: string)
    requires CheckSubmit(emailField, password).CallLogin?
    ensures |Trim(emailField)| <= Main.EmailMaxLength <==> Main.ValidateEmail(JsString(Trim(emailField)))
  {
  }

  /** A failed validation never shows the loading state it did not have,
      and a login that fails with an `Error` always clears it and shows the
      error's message, or "Erro ao fazer login" when that is empty. */
  lemma LoadingOnlyWhileLoggingIn(form: Form, emailField: string, password: string, bridge: Option<Thrown>)
    ensures Submit(form, emailField, password, bridge).loading ==>
      form.loading || (CheckSubmit(emailField, password).CallLogin? && (bridge.None? || bridge.value.NonError?))
    ensures CheckSubmit(emailField, password).CallLogin? && bridge.Some? && bridge.value.Error? ==>
      Submit(form, emailField, password, bridge) ==
        Form(false, Some(if bridge.value.message != "" then bridge.value.message else LoginFailed))
  {
    match CheckSubmit(emailField, password)
    case ShowError(_) =>
    case CallLogin(_, _) =>
      if bridge.Some? && bridge.value.Error? {
        assert Truthy(JsString(bridge.value.message)) <==> bridge.value.message != "";
      }
  }
}

/** The preload bridge (src/preload/preload.ts): the only surface the
    windows can call. Every text argument is checked to be a string and cut
    to a per-channel length before it is sent to the main process. */
module Preload {
  import opened Wrappers
  import opened Text
  import opened Js

  const EmailMaxLength := 255
  const PasswordMaxLength := 128
  const ShortcutMaxLength := 50
  const StyleMaxLength := 20

  const NotAString := "Invalid input: expected string"
  const NotAFunction := "Callback must be a function"

  /** `sanitizeString`: a non-string throws; a string keeps its first
      `maxLength` characters. */
  function SanitizeString(value: JsValue, maxLength: int): (r: Result<string, Thrown>)
    ensures r.Err? <==> !value.JsString?
    ensures r.Err? ==> r.error == Error(NotAString)
    ensures r.Ok? ==> r.value <= value.s
    ensures r.Ok? && 0 <= maxLength ==> |r.value| == if |value.s| < maxLength then |value.s| else maxLength
  {
    if !value.JsString? then Err(Error(NotAString)) else Ok(Slice(value.s, maxLength))
  }

  /** A string already within the limit passes through unchanged, and
      sanitising twice with the same limit is sanitising once. */
  lemma SanitizeKeepsShortStrings(s: string, maxLength: nat)
    ensures |s| <= maxLength <==> SanitizeString(JsString(s), maxLength) == Ok(s)
    ensures var once := SanitizeString(JsString(s), maxLength).value;
      SanitizeString(JsString(once), maxLength) == Ok(once)
  {
  }

  /** An `ipcRenderer.invoke` call: the channel and its text arguments. */
  datatype Invoke = Invoke(channel: string, args: seq<string>)

  /** `login`: the email is checked before the password, so a bad email
      throws without looking at the password. */
  function Login(email: JsValue, password: JsValue): (r: Result<Invoke, Thrown>)
    ensures r.Ok? <==> email.JsString? && password.JsString?
    ensures r.Err? ==> r.error == Error(NotAString)
    ensures r.Ok? ==> r.value == Invoke("auth:login", [Slice(email.s, EmailMaxLength), Slice(password.s, PasswordMaxLength)])
  {
    match SanitizeString(email, EmailMaxLength)
    case Err(e) => Err(e)
    case Ok(sanitizedEmail) =>
      match SanitizeString(password, PasswordMaxLength)
      case Err(e) => Err(e)
      case Ok(sanitizedPassword) => Ok(Invoke("auth:login", [sanitizedEmail, sanitizedPassword]))
  }

  /** `updateShortcut`: at most 50 characters reach the main process. */
  function UpdateShortcut(shortcut: JsValue): (r: Result<Invoke, Thrown>)
    ensures r.Ok? <==> shortcut.JsString?
    ensures r.Ok? ==> r.value == Invoke("settings:updateShortcut", [Slice(shortcut.s, ShortcutMaxLength)])
  {
    match SanitizeString(shortcut, ShortcutMaxLength)
    case Err(e) => Err(e)
    case Ok(s) => Ok(Invoke("settings:updateShortcut", [s]))
  }

  /** `updateCorrectionStyle`: at most 20 characters reach the main process. */
  function UpdateCorrectionStyle(style: JsValue): (r: Result<Invoke, Thrown>)
    ensures r.Ok? <==> style.JsString?
    ensures r.Ok? ==> r.value == Invoke("settings:updateCorrectionStyle", [Slice(style.s, StyleMaxLength)])
  {
    match SanitizeString(style, StyleMaxLength)
    case Err(e) => Err(e)
    case Ok(s) => Ok(Invoke("settings:updateCorrectionStyle", [s]))
  }

  /** `onAuthStateChanged`: only a function is accepted as the listener. */
  function OnAuthStateChanged(callback: JsValue): (r: Result<JsValue, Thrown>)
    ensures r.Ok? <==> callback.JsFunction?
    ensures r.Ok? ==> r.value == callback
    ensures r.Err? ==> r.error == Error(NotAFunction)
  {
    if callback.JsFunction? then Ok(callback) else Err(Error(NotAFunction))
  }

  /** Whatever the window passes, every text that leaves the bridge is
      within its channel's limit. */
  lemma BridgeBoundsEveryArgument(email: JsValue, password: JsValue, shortcut: JsValue, style: JsValue)
    ensures Login(email, password).Ok? ==>
      |Login(email, password).value.args[0]| <= EmailMaxLength
      && |Login(email, password).value.args[1]| <= PasswordMaxLength
    ensures UpdateShortcut(shortcut).Ok? ==> |UpdateShortcut(shortcut).value.args[0]| <= ShortcutMaxLength
    ensures UpdateCorrectionStyle(style).Ok? ==> |UpdateCorrectionStyle(style).value.args[0]| <= StyleMaxLength
  {
  }
}

/** The settings window's script (src/windows/settings.js): the shortcut
    capture field, the number and text sanitisers used when showing the
    user's data, and the guards on the two forms. HTML escaping is left to
    the page and not modelled. */
module Settings {
  import opened Wrappers
  import opened Text
  import opened Js

  // ---------------------------------------------------------------------
  // Showing values

  const NotDefined := "Não definido"
  const DefaultTextLimit := 255
  const MaxShownNumber := 999999

  /** `sanitizeAndLimit`, before escaping: a non-string shows as "Não
      definido", a string as its first `maxLength` characters. */
  function SanitizeAndLimit(text: JsValue, maxLength: int): (r: string)
    ensures !text.JsString? ==> r == NotDefined
    ensures text.JsString? ==> r <= text.s
    ensures text.JsString? && 0 <= maxLength ==> |r| == if |text.s| < maxLength then |text.s| else maxLength
  {
    if !text.JsString? then NotDefined else Slice(text.s, maxLength)
  }

  /** `sanitizeNumber`, given what `parseInt(value, 10)` yields (`None` for
      NaN): the number clamped to [0, 999999], and 0 for NaN. */
  function SanitizeNumber(parsed: Option<int>): (r: int)
    ensures 0 <= r <= MaxShownNumber
    ensures parsed.None? ==> r == 0
    ensures parsed.Some? && 0 <= parsed.value <= MaxShownNumber ==> r == parsed.value
    ensures parsed.Some? && parsed.value > MaxShownNumber ==> r == MaxShownNumber
    ensures parsed.Some? && parsed.value < 0 ==> r == 0
  {
    match parsed
    case None => 0
    case Some(num) =>
      var low := if num < MaxShownNumber then num else MaxShownNumber;
      if 0 < low then low else 0
  }

  /** Showing a number twice changes nothing. */
  lemma SanitizeNumberIdempotent(parsed: Option<int>)
    ensures SanitizeNumber(Some(SanitizeNumber(parsed))) == SanitizeNumber(parsed)
  {
  }

  // ---------------------------------------------------------------------
  // Capturing a shortcut

  /** A `keydown` in the shortcut field: `e.key` and the four modifier flags. */
  datatype KeyDown = KeyDown(key: string, ctrl: bool, alt: bool, shift: bool, meta: bool)

  /** The `e.key` values of the modifier keys themselves. */
  const ModifierKeys: seq<string> := ["Control", "Alt", "Shift", "Meta"]

  /** The tokens for the held modifiers, in the fixed order. */
  function ModifierTokens(ctrl: bool, alt: bool, shift: bool, meta: bool): (r: seq<string>)
    ensures |r| == (if ctrl then 1 else 0) + (if alt then 1 else 0) + (if shift then 1 else 0) + (if meta then 1 else 0)
  {
    (if ctrl then ["Ctrl"] else []) + (if alt then ["Alt"] else [])
    + (if shift then ["Shift"] else []) + (if meta then ["Cmd"] else [])
  }

  /** The tokens collected for one key press: the held modifiers, then the
      uppercased key unless the key pressed is itself a modifier. */
  function CaptureTokens(e: KeyDown): (r: seq<string>)
    ensures |ModifierTokens(e.ctrl, e.alt, e.shift, e.meta)| <= |r|
    ensures r[..|ModifierTokens(e.ctrl, e.alt, e.shift, e.meta)|] == ModifierTokens(e.ctrl, e.alt, e.shift, e.meta)
    ensures e.key in ModifierKeys ==> r == ModifierTokens(e.ctrl, e.alt, e.shift, e.meta)
    ensures e.key !in ModifierKeys ==> |r| == |ModifierTokens(e.ctrl, e.alt, e.shift, e.meta)| + 1 && r[|r| - 1] == Upper(e.key)
  {
    var mods := ModifierTokens(e.ctrl, e.alt, e.shift, e.meta);
    if e.key in ModifierKeys then mods else mods + [Upper(e.key)]
  }

  /** The `keydown` handler: the field becomes the tokens joined with `+`
      when there are at least two, and is left as it was otherwise. */
  function OnKeyDown(field: string, e: KeyDown): (r: string)
    ensures |CaptureTokens(e)| > 1 ==> r == Join(CaptureTokens(e), "+")
    ensures |CaptureTokens(e)| <= 1 ==> r == field
  {
    var keys := CaptureTokens(e);
    if |keys| > 1 then Join(keys, "+") else field
  }

  /** A lone key, or a lone modifier, never changes the field: a press
      only counts with at least one modifier held and another key, or with
      two modifiers. */
  lemma LonePressKeepsField(field: string, e: KeyDown)
    requires !e.ctrl && !e.alt && !e.shift && !e.meta
    ensures OnKeyDown(field, e) == field
  {
  }

  /** Pressing a modifier key with no other modifier held keeps the field. */
  lemma LoneModifierKeepsField(field: string, e: KeyDown)
    requires e.key in ModifierKeys
    requires (if e.ctrl then 1 else 0) + (if e.alt then 1 else 0) + (if e.shift then 1 else 0) + (if e.meta then 1 else 0) <= 1
    ensures OnKeyDown(field, e) == field
  {
  }

  // ---------------------------------------------------------------------
  // The forms

  /** The shortcut form's submit: the trimmed field is sent, and nothing is
      sent when it is empty after trimming. */
  function SubmitShortcut(field: string): (r: Option<string>)
    ensures r.None? <==> AllSpace(field)
    ensures r.Some? ==> r.value == Trim(field) && r.value != ""
  {
    var shortcut := Trim(field);
    if shortcut == "" then None else Some(shortcut)
  }

  /** The style form's submit: the selected value is sent unless empty. */
  function SubmitStyle(field: string): (r: Option<string>)
    ensures r.None? <==> field == ""
    ensures r.Some? ==> r.value == field
  {
    if field == "" then None else Some(field)
  }

  const UnknownFailure := "Erro desconhecido"
  const AlertLimit := 200

  /** The text of the alert after a failed update: `error?.message`, or
      "Erro desconhecido" when that is falsy, shown through the 200-character
      sanitiser. */
  function FailureAlert(prefix: string, error: Thrown): (r: string)
    ensures StartsWith(r, prefix)
    ensures error.Error? && error.message != "" ==> r == prefix + Slice(error.message, AlertLimit)
    ensures error.Error? && error.message == "" ==> r == prefix + UnknownFailure
  {
    var message := match error
      case Error(m) => JsString(m)
      case NonError(v) => GetOptional(v, "message");
    var shown := if Truthy(message) then message else JsString(UnknownFailure);
    prefix + SanitizeAndLimit(shown, AlertLimit)
  }

  /** A thrown value whose `message` is not a string is reported as "Não
      definido", not as its message. */
  lemma NonStringMessageShowsNotDefined(prefix: string, n: int)
    requires n != 0
    ensures FailureAlert(prefix, NonError(JsObject(map["message" := JsNumber(n)]))) == prefix + NotDefined
  {
    assert GetOptional(JsObject(map["message" := JsNumber(n)]), "message") == JsNumber(n);
  }
}

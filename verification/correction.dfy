/** The correction run behind the hotkey (src/services/correction.ts):
    capture the selection, ask the server for a corrected text, paste it
    back, and show exactly one notice. The server's reply and the outcomes
    of the simulated keystrokes are parameters. */
module Correction {
  import opened Wrappers
  import opened Text
  import opened Js
  import opened Platform
  import opened Clipboard

  // ---------------------------------------------------------------------
  // The notice text

  /** The text with every `<` and `>` removed, all other characters kept in
      order. */
  function StripAngles(s: string): (r: string)
    ensures '<' !in r && '>' !in r
    ensures |r| <= |s|
    decreases |s|
  {
    if |s| == 0 then ""
    else (if s[0] == '<' || s[0] == '>' then "" else [s[0]]) + StripAngles(s[1..])
  }

  /** Stripping works piece by piece. */
  lemma {:induction false} StripAnglesAppend(a: string, b: string)
    ensures StripAngles(a + b) == StripAngles(a) + StripAngles(b)
    decreases |a|
  {
    if |a| == 0 {
      assert a + b == b;
    } else {
      assert (a + b)[1..] == a[1..] + b;
      StripAnglesAppend(a[1..], b);
    }
  }

  /** Stripping keeps the text exactly when it has no angle brackets. */
  lemma {:induction false} StripAnglesKeeps(s: string)
    ensures StripAngles(s) == s <==> '<' !in s && '>' !in s
    decreases |s|
  {
    if |s| > 0 {
      StripAnglesKeeps(s[1..]);
      assert s == [s[0]] + s[1..];
      if s[0] == '<' || s[0] == '>' {
        assert |StripAngles(s)| <= |s[1..]| < |s|;
      }
    }
  }

  /** `sanitizeMessage`: angle brackets removed, then the first 100
      characters kept. */
  function SanitizeMessage(message: string): (r: string)
    ensures '<' !in r && '>' !in r
    ensures |r| <= 100
    ensures r <= StripAngles(message)
    ensures |r| == if |StripAngles(message)| < 100 then |StripAngles(message)| else 100
  {
    Slice(StripAngles(message), 100)
  }

  /** A message comes through unchanged exactly when it has no angle
      brackets and at most 100 characters; so sanitising twice is
      sanitising once. */
  lemma SanitizeKeeps(message: string)
    ensures SanitizeMessage(message) == message <==>
      '<' !in message && '>' !in message && |message| <= 100
    ensures SanitizeMessage(SanitizeMessage(message)) == SanitizeMessage(message)
  {
    StripAnglesKeeps(message);
    StripAnglesKeeps(SanitizeMessage(message));
  }

  // ---------------------------------------------------------------------
  // The notice slot

  datatype ToastKind = SuccessToast | ErrorToast

  /** A notice window: its identity, the text it shows and its style. */
  datatype Toast = Toast(id: nat, message: string, kind: ToastKind)

  /** The service's one reference to a notice window, the windows open on
      screen, and the identity the next window gets. */
  datatype ToastSlot = ToastSlot(current: Option<Toast>, open: set<nat>, nextId: nat)

  /** Exactly the referenced window is open, and identities are fresh. */
  predicate SlotValid(slot: ToastSlot) {
    && slot.open == (if slot.current.Some? then {slot.current.value.id} else {})
    && (slot.current.Some? ==> slot.current.value.id < slot.nextId)
  }

  /** `createToast` (open and close only): closes the current window, if
      any, and opens a new one showing the sanitised message. The window
      stays referenced until a timer expires. */
  function CreateToast(slot: ToastSlot, message: string, kind: ToastKind): (r: ToastSlot)
    requires SlotValid(slot)
    ensures SlotValid(r)
    ensures r.current == Some(Toast(slot.nextId, SanitizeMessage(message), kind))
    ensures r.open == {slot.nextId} && slot.nextId !in slot.open
  {
    var closed := if slot.current.Some? then slot.open - {slot.current.value.id} else slot.open;
    var t := Toast(slot.nextId, SanitizeMessage(message), kind);
    ToastSlot(Some(t), closed + {t.id}, slot.nextId + 1)
  }

  /** One of the two-second timers firing: it closes whatever window is
      referenced at that moment, not necessarily the one it was started
      for, and clears the reference. */
  function Expire(slot: ToastSlot): (r: ToastSlot)
    requires SlotValid(slot)
    ensures SlotValid(r) && r.current.None? && r.open == {}
    ensures r.nextId == slot.nextId
  {
    if slot.current.Some? then ToastSlot(None, slot.open - {slot.current.value.id}, slot.nextId)
    else slot
  }

  /** A valid slot never has more than one window open. */
  lemma AtMostOneOpen(slot: ToastSlot)
    requires SlotValid(slot)
    ensures |slot.open| <= 1
    ensures |slot.open| == 1 <==> slot.current.Some?
  {
  }

  /** A timer started for an earlier notice closes a newer one early. */
  lemma StaleTimerClosesNewToast(slot: ToastSlot, first: string, second: string, kind: ToastKind)
    requires SlotValid(slot)
    ensures Expire(CreateToast(CreateToast(slot, first, kind), second, kind)).open == {}
  {
  }

  // ---------------------------------------------------------------------
  // The run

  /** What the server call produced: the response body (any status is
      accepted) or what the call threw. */
  datatype ApiReply = Replied(body: JsValue) | ApiThrew(thrown: Thrown)

  /** The externally visible actions of a run, in order. */
  datatype Effect =
    | ApiCall(text: string, language: string)
    | ReplaceCall(text: string)
    | Notice(message: string, kind: ToastKind)

  /** The desktop and the actions after a run. A `Notice` action is one
      call of `createToast`. */
  datatype RunResult = RunResult(desktop: Desktop, effects: seq<Effect>)

  const Languages: seq<string> := ["pt", "en", "es"]
  const MaxTextLength := 10000

  const NothingSelected := "Nenhum texto selecionado"
  const TooLong := "Texto muito longo (máx 10.000 caracteres)"
  const InvalidReply := "Resposta inválida do servidor"
  const Corrected := "Texto corrigido"
  const UnknownFailure := "Erro desconhecido"

  /** The language sent to the server: an unsupported one becomes `pt`. */
  function EffectiveLanguage(language: string): (r: string)
    ensures r in Languages
    ensures language in Languages ==> r == language
  {
    if language in Languages then language else "pt"
  }

  /** None of the actions is a notice. */
  predicate NoNotice(effects: seq<Effect>) {
    forall i | 0 <= i < |effects| :: !effects[i].Notice?
  }

  /** The run's last action is its only notice. */
  predicate EndsWithOneNotice(r: RunResult) {
    && |r.effects| >= 1
    && r.effects[|r.effects| - 1].Notice?
    && NoNotice(r.effects[..|r.effects| - 1])
  }

  /** A run ends by showing one notice. */
  function Finish(d: Desktop, effects: seq<Effect>, message: string, kind: ToastKind): (r: RunResult)
    requires NoNotice(effects)
    ensures r.effects == effects + [Notice(message, kind)]
    ensures r.desktop == d && EndsWithOneNotice(r)
  {
    var r := RunResult(d, effects + [Notice(message, kind)]);
    assert r.effects[..|r.effects| - 1] == effects;
    r
  }

  /** `response.correction.correctedText`: the value read, or the TypeError
      thrown when a step of the path is `undefined` or `null`. */
  function CorrectedText(body: JsValue): Result<JsValue, Thrown> {
    match Get(body, "correction")
    case Err(e) => Err(e)
    case Ok(c) => Get(c, "correctedText")
  }

  /** The check on the value read: a non-empty string. */
  predicate ValidCorrection(v: JsValue) {
    Truthy(v) && v.JsString?
  }

  /** `correctSelectedText`. Every exit shows exactly one notice, as its
      last action; exceptions of the server call, of the response path and
      of the paste are caught and shown by message, or as
      "Erro desconhecido" for a non-`Error`. */
  function Run(os: Os, language: string, d: Desktop, copy: Sim, reply: ApiReply, paste: Sim): (r: RunResult)
    ensures EndsWithOneNotice(r)
  {
    var captured := Capture(os, d, copy);
    var text := captured.text;
    if Trim(text) == "" then
      Finish(captured.after, [], NothingSelected, ErrorToast)
    else if |text| > MaxTextLength then
      Finish(captured.after, [], TooLong, ErrorToast)
    else
      AskServer(os, [ApiCall(text, EffectiveLanguage(language))], captured.after, reply, paste)
  }

  /** The run once the server has been asked: read the corrected text and
      check it. */
  function AskServer(os: Os, asked: seq<Effect>, d: Desktop, reply: ApiReply, paste: Sim): (r: RunResult)
    requires NoNotice(asked)
    ensures |r.effects| > |asked| && r.effects[..|asked|] == asked && EndsWithOneNotice(r)
    ensures |r.effects| <= |asked| + 2
    ensures |r.effects| == |asked| + 2 ==> r.effects[|asked|].ReplaceCall?
  {
    match reply
    case ApiThrew(e) => Finish(d, asked, MessageOr(e, UnknownFailure), ErrorToast)
    case Replied(body) =>
      match CorrectedText(body)
      case Err(e) => Finish(d, asked, MessageOr(e, UnknownFailure), ErrorToast)
      case Ok(v) =>
        if !ValidCorrection(v) then Finish(d, asked, InvalidReply, ErrorToast)
        else PasteBack(os, asked, d, v.s, paste)
  }

  /** The run once a corrected text is in hand: paste it and report. */
  function PasteBack(os: Os, asked: seq<Effect>, d: Desktop, fixed: string, paste: Sim): (r: RunResult)
    requires NoNotice(asked)
    ensures |r.effects| == |asked| + 2 && r.effects[..|asked| + 1] == asked + [ReplaceCall(fixed)]
    ensures EndsWithOneNotice(r)
    ensures r.desktop == Replace(os, d, fixed, paste).after
  {
    var replaced := Replace(os, d, fixed, paste);
    var done := asked + [ReplaceCall(fixed)];
    assert NoNotice(done);
    var r := match replaced.error
      case Some(e) => Finish(replaced.after, done, MessageOr(e, UnknownFailure), ErrorToast)
      case None => Finish(replaced.after, done, Corrected, SuccessToast);
    assert r.effects[..|asked| + 1] == done;
    r
  }

  // ---------------------------------------------------------------------
  // Properties of a run

  /** The first action is the server call exactly when the selection has
      a non-space character and at most 10 000 characters; the call carries
      the selection and the effective language, and no later action is a
      server call. */
  lemma ApiCalledOnlyForUsableText(os: Os, language: string, d: Desktop, copy: Sim, reply: ApiReply, paste: Sim)
    ensures var r := Run(os, language, d, copy, reply, paste);
      var text := Capture(os, d, copy).text;
      && (r.effects[0].ApiCall? <==> Trim(text) != "" && |text| <= MaxTextLength)
      && (r.effects[0].ApiCall? ==> r.effects[0] == ApiCall(text, EffectiveLanguage(language)))
      && forall i | 1 <= i < |r.effects| :: !r.effects[i].ApiCall?
  {
    var captured := Capture(os, d, copy);
    var text := captured.text;
    var r := Run(os, language, d, copy, reply, paste);
    if Trim(text) == "" {
      assert r == Finish(captured.after, [], NothingSelected, ErrorToast);
    } else if |text| > MaxTextLength {
      assert r == Finish(captured.after, [], TooLong, ErrorToast);
    } else {
      var asked := [ApiCall(text, EffectiveLanguage(language))];
      assert r == AskServer(os, asked, captured.after, reply, paste);
      assert r.effects[0] == r.effects[..1][0];
    }
  }

  /** An empty or all-whitespace selection shows "Nenhum texto selecionado"
      and does nothing else; this includes a failed copy, which captures "". */
  lemma NothingSelectedRun(os: Os, language: string, d: Desktop, copy: Sim, reply: ApiReply, paste: Sim)
    requires copy.SimFailed? || AllSpace(d.selection)
    ensures Run(os, language, d, copy, reply, paste).effects == [Notice(NothingSelected, ErrorToast)]
  {
  }

  /** The length limit: more than 10 000 characters shows the limit notice
      and calls nothing, while exactly 10 000 characters reach the server. */
  lemma LengthLimit(os: Os, language: string, d: Desktop, reply: ApiReply, paste: Sim)
    requires !AllSpace(d.selection)
    ensures |d.selection| > MaxTextLength ==>
      Run(os, language, d, SimOk, reply, paste).effects == [Notice(TooLong, ErrorToast)]
    ensures |d.selection| == MaxTextLength ==>
      Run(os, language, d, SimOk, reply, paste).effects[0] == ApiCall(d.selection, EffectiveLanguage(language))
  {
    ApiCalledOnlyForUsableText(os, language, d, SimOk, reply, paste);
  }

  /** A reply whose corrected text is missing, empty or not a string shows
      "Resposta inválida do servidor" and pastes nothing. */
  lemma InvalidReplyRun(os: Os, language: string, d: Desktop, body: JsValue, paste: Sim)
    requires !AllSpace(d.selection) && |d.selection| <= MaxTextLength
    requires CorrectedText(body).Ok? && !ValidCorrection(CorrectedText(body).value)
    ensures var r := Run(os, language, d, SimOk, Replied(body), paste);
      r.effects == [ApiCall(d.selection, EffectiveLanguage(language)), Notice(InvalidReply, ErrorToast)]
      && r.desktop == d
  {
    var asked := [ApiCall(d.selection, EffectiveLanguage(language))];
    RunAsksServer(os, language, d, Replied(body), paste);
    assert AskServer(os, asked, d, Replied(body), paste)
        == Finish(d, asked, InvalidReply, ErrorToast);
  }

  /** With a usable selection and a valid reply, the run goes on to paste. */
  lemma RunReachesPaste(os: Os, language: string, d: Desktop, body: JsValue, paste: Sim)
    requires !AllSpace(d.selection) && |d.selection| <= MaxTextLength
    requires CorrectedText(body).Ok? && ValidCorrection(CorrectedText(body).value)
    ensures Run(os, language, d, SimOk, Replied(body), paste) ==
      PasteBack(os, [ApiCall(d.selection, EffectiveLanguage(language))], d, CorrectedText(body).value.s, paste)
  {
    var asked := [ApiCall(d.selection, EffectiveLanguage(language))];
    RunAsksServer(os, language, d, Replied(body), paste);
    AskServerPastes(os, asked, d, body, paste);
  }

  /** A valid reply goes on to the paste. */
  lemma AskServerPastes(os: Os, asked: seq<Effect>, d: Desktop, body: JsValue, paste: Sim)
    requires NoNotice(asked)
    requires CorrectedText(body).Ok? && ValidCorrection(CorrectedText(body).value)
    ensures AskServer(os, asked, d, Replied(body), paste) ==
      PasteBack(os, asked, d, CorrectedText(body).value.s, paste)
  {
  }

  /** With a usable selection, the run asks the server. */
  lemma RunAsksServer(os: Os, language: string, d: Desktop, reply: ApiReply, paste: Sim)
    requires !AllSpace(d.selection) && |d.selection| <= MaxTextLength
    ensures Run(os, language, d, SimOk, reply, paste) ==
      AskServer(os, [ApiCall(d.selection, EffectiveLanguage(language))], d, reply, paste)
  {
    var captured := Capture(os, d, SimOk);
    assert captured.text == d.selection && captured.after == d;
    assert Trim(captured.text) != "";
  }

  /** A valid reply is pasted exactly once, verbatim; on success the
      selection holds it, the clipboard is back to what it was and the
      success notice follows. */
  lemma SuccessRun(os: Os, language: string, d: Desktop, body: JsValue)
    requires !AllSpace(d.selection) && |d.selection| <= MaxTextLength
    requires CorrectedText(body).Ok? && ValidCorrection(CorrectedText(body).value)
    ensures var r := Run(os, language, d, SimOk, Replied(body), SimOk);
      var fixed := CorrectedText(body).value.s;
      && r.effects == [ApiCall(d.selection, EffectiveLanguage(language)), ReplaceCall(fixed), Notice(Corrected, SuccessToast)]
      && r.desktop == Desktop(d.clipboard, fixed)
  {
    RunReachesPaste(os, language, d, body, SimOk);
  }

  /** A failed paste shows the error and leaves the corrected text on the
      clipboard. */
  lemma PasteFailureRun(os: Os, language: string, d: Desktop, body: JsValue, e: Thrown)
    requires !AllSpace(d.selection) && |d.selection| <= MaxTextLength
    requires CorrectedText(body).Ok? && ValidCorrection(CorrectedText(body).value)
    ensures var r := Run(os, language, d, SimOk, Replied(body), SimFailed(e));
      var fixed := CorrectedText(body).value.s;
      && r.effects == [ApiCall(d.selection, EffectiveLanguage(language)), ReplaceCall(fixed), Notice(MessageOr(e, UnknownFailure), ErrorToast)]
      && r.desktop == Desktop(fixed, d.selection)
  {
    RunReachesPaste(os, language, d, body, SimFailed(e));
  }

  /** The server's reply for a correction, wrapped as the client returns it. */
  function ReplyWith(corrected: string): JsValue {
    JsObject(map["correction" := JsObject(map["correctedText" := JsString(corrected)])])
  }

  lemma ReplyWithReads(corrected: string)
    ensures CorrectedText(ReplyWith(corrected)) == Ok(JsString(corrected))
  {
  }

  /** The reply for a failed request, which the client hands back as a
      normal response, has no `correction`: the run shows the TypeError of
      reading `correctedText` from `undefined`, not the server's message. */
  lemma ServerErrorShowsTypeError(os: Os, language: string, d: Desktop, fields: map<string, JsValue>)
    requires !AllSpace(d.selection) && |d.selection| <= MaxTextLength
    requires "correction" !in fields
    ensures Run(os, language, d, SimOk, Replied(JsObject(fields)), SimOk).effects ==
      [ApiCall(d.selection, EffectiveLanguage(language)), Notice(ReadError("undefined", "correctedText"), ErrorToast)]
  {
    RunAsksServer(os, language, d, Replied(JsObject(fields)), SimOk);
  }

  /** A whole run: "Eu vai pra escola" is replaced by the server's
      "Eu vou para a escola". */
  lemma ExampleRun(os: Os)
    ensures var d := Desktop("link", "Eu vai pra escola");
      var r := Run(os, "pt", d, SimOk, Replied(ReplyWith("Eu vou para a escola")), SimOk);
      && r.desktop == Desktop("link", "Eu vou para a escola")
      && r.effects == [ApiCall("Eu vai pra escola", "pt"), ReplaceCall("Eu vou para a escola"), Notice(Corrected, SuccessToast)]
  {
    var s := "Eu vai pra escola";
    assert !AllSpace(s) by { assert !IsSpace(s[0]); }
    ReplyWithReads("Eu vou para a escola");
    SuccessRun(os, "pt", Desktop("link", s), ReplyWith("Eu vou para a escola"));
  }
}

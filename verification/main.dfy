/** The main process's input validators and the IPC handlers built on them
    (src/main.ts). The session service, persistence and the windows are
    outside the model: their outcomes are parameters and their calls are
    recorded as effects. */
module Main {
  import opened Wrappers
  import opened Text
  import opened Js
  import Platform
  import Keyboard

  // ---------------------------------------------------------------------
  // Email: /^[^\s@]+@[^\s@]+\.[^\s@]+$/ and at most 255 characters

  const EmailMaxLength := 255

  /** `[^\s@]+`: one or more characters, none whitespace or `@`. */
  predicate EmailAtom(s: string) {
    |s| > 0 && forall i | 0 <= i < |s| :: !IsSpace(s[i]) && s[i] != '@'
  }

  /** What the email expression matches: a local part, `@`, and a domain
      made of two parts around some `.`, each part one or more characters
      that are neither whitespace nor `@` (the domain parts may themselves
      contain dots). */
  predicate EmailPattern(s: string) {
    exists at, dot | 0 <= at < dot < |s| ::
      && s[at] == '@' && s[dot] == '.'
      && EmailAtom(s[..at]) && EmailAtom(s[at + 1..dot]) && EmailAtom(s[dot + 1..])
  }

  /** `validateEmail`. */
  predicate ValidateEmail(email: JsValue) {
    email.JsString? && EmailPattern(email.s) && |email.s| <= EmailMaxLength
  }

  /** Every character of a matched address other than the separators
      belongs to one of the three atoms. */
  lemma EmailPatternChars(s: string, at: int, dot: int, i: int)
    requires 0 <= at < dot < |s| && s[at] == '@' && s[dot] == '.'
    requires EmailAtom(s[..at]) && EmailAtom(s[at + 1..dot]) && EmailAtom(s[dot + 1..])
    requires 0 <= i < |s|
    ensures !IsSpace(s[i])
    ensures s[i] == '@' <==> i == at
  {
    if i < at {
      assert s[i] == s[..at][i];
    } else if at < i < dot {
      assert s[i] == s[at + 1..dot][i - at - 1];
    } else if dot < i {
      assert s[i] == s[dot + 1..][i - dot - 1];
    }
  }

  /** An accepted address has no whitespace, exactly one `@`, and a
      non-empty local part before it. */
  lemma EmailShape(s: string)
    requires EmailPattern(s)
    ensures NoSpace(s)
    ensures multiset(s)['@'] == 1
    ensures exists at | 0 < at < |s| :: s[at] == '@' && '@' !in s[..at] && '@' !in s[at + 1..]
  {
    var at, dot :| 0 <= at < dot < |s| && s[at] == '@' && s[dot] == '.'
      && EmailAtom(s[..at]) && EmailAtom(s[at + 1..dot]) && EmailAtom(s[dot + 1..]);
    forall i | 0 <= i < |s|
      ensures !IsSpace(s[i]) && (s[i] == '@' <==> i == at)
    {
      EmailPatternChars(s, at, dot, i);
    }
    assert s == s[..at] + [s[at]] + s[at + 1..];
    assert '@' !in s[..at];
    assert '@' !in s[at + 1..];
    assert multiset(s) == multiset(s[..at]) + multiset{'@'} + multiset(s[at + 1..]);
  }

  /** The email check as one left-to-right scan: it remembers the `@` and
      the first `.` at least two places after it, and gives up on
      whitespace or a second `@`. */
  method MatchEmail(s: string) returns (ok: bool)
    ensures ok <==> EmailPattern(s)
  {
    var at := -1;
    var dot := -1;
    for k := 0 to |s|
      invariant forall i | 0 <= i < k :: !IsSpace(s[i])
      invariant at == -1 ==> forall i | 0 <= i < k :: s[i] != '@'
      invariant at != -1 ==> 0 <= at < k && s[at] == '@'
      invariant at != -1 ==> forall i | 0 <= i < k && i != at :: s[i] != '@'
      invariant dot == -1 && at != -1 ==> forall j | at + 1 < j < k :: s[j] != '.'
      invariant dot != -1 ==> at != -1 && at + 1 < dot < k && s[dot] == '.'
      invariant dot != -1 ==> forall j | at + 1 < j < dot :: s[j] != '.'
    {
      if IsSpace(s[k]) {
        SpaceRejects(s, k);
        return false;
      }
      if s[k] == '@' {
        if at != -1 {
          SecondAtRejects(s, at, k);
          return false;
        }
        at := k;
      } else if s[k] == '.' && at != -1 && at + 1 < k && dot == -1 {
        dot := k;
      }
    }
    ok := at > 0 && dot != -1 && dot < |s| - 1;
    if ok {
      AcceptedByWitness(s, at, dot);
    } else {
      RejectedByScan(s, at, dot);
    }
  }

  lemma SpaceRejects(s: string, k: int)
    requires 0 <= k < |s| && IsSpace(s[k])
    ensures !EmailPattern(s)
  {
    if EmailPattern(s) {
      EmailShape(s);
    }
  }

  lemma SecondAtRejects(s: string, a: int, b: int)
    requires 0 <= a < b < |s| && s[a] == '@' && s[b] == '@'
    ensures !EmailPattern(s)
  {
    if EmailPattern(s) {
      var at, dot :| 0 <= at < dot < |s| && s[at] == '@' && s[dot] == '.'
        && EmailAtom(s[..at]) && EmailAtom(s[at + 1..dot]) && EmailAtom(s[dot + 1..]);
      EmailPatternChars(s, at, dot, a);
      EmailPatternChars(s, at, dot, b);
    }
  }

  lemma AcceptedByWitness(s: string, at: int, dot: int)
    requires 0 < at && at + 1 < dot < |s| - 1 && s[at] == '@' && s[dot] == '.'
    requires forall i | 0 <= i < |s| :: !IsSpace(s[i])
    requires forall i | 0 <= i < |s| && i != at :: s[i] != '@'
    ensures EmailPattern(s)
  {
    assert EmailAtom(s[..at]);
    assert EmailAtom(s[at + 1..dot]);
    assert EmailAtom(s[dot + 1..]);
  }

  lemma RejectedByScan(s: string, at: int, dot: int)
    requires at == -1 ==> forall i | 0 <= i < |s| :: s[i] != '@'
    requires at != -1 ==> 0 <= at < |s| && s[at] == '@'
    requires at != -1 ==> forall i | 0 <= i < |s| && i != at :: s[i] != '@'
    requires dot == -1 && at != -1 ==> forall j | at + 1 < j < |s| :: s[j] != '.'
    requires dot != -1 ==> at != -1 && at + 1 < dot < |s| && s[dot] == '.'
    requires dot != -1 ==> forall j | at + 1 < j < dot :: s[j] != '.'
    requires !(at > 0 && dot != -1 && dot < |s| - 1)
    ensures !EmailPattern(s)
  {
  }

  // ---------------------------------------------------------------------
  // Password

  const PasswordMinLength := 6
  const PasswordMaxLength := 128

  /** `validatePassword`: a string of 6 to 128 characters. */
  predicate ValidatePassword(password: JsValue) {
    password.JsString? && PasswordMinLength <= |password.s| <= PasswordMaxLength
  }

  // ---------------------------------------------------------------------
  // Shortcut: /^(CTRL|ALT|...|\+|[A-Z0-9]|...|\s)+$/i and at most 50 characters

  const ShortcutMaxLength := 50

  /** The named alternatives of the shortcut expression. */
  const NamedKeys: seq<string> := [
    "CTRL", "ALT", "SHIFT", "CMD", "COMMAND", "META", "FORWARD SLASH", "BACK SLASH",
    "COMMA", "PERIOD", "SEMICOLON", "QUOTE", "LEFT BRACKET", "RIGHT BRACKET", "MINUS", "EQUAL"]

  /** The one-character alternatives `\+`, `[A-Z0-9]` (either case) and `\s`. */
  predicate ShortcutChar(c: char) {
    IsAsciiLetter(c) || IsAsciiDigit(c) || c == '+' || IsSpace(c)
  }

  /** Zero or more repetitions of the alternatives, matched case-insensitively
      (in the expression's non-Unicode mode, only ASCII letters change case). */
  predicate ShortcutTokens(s: string)
    decreases |s|
  {
    || |s| == 0
    || (ShortcutChar(s[0]) && ShortcutTokens(s[1..]))
    || exists k | 0 <= k < |NamedKeys| ::
         0 < |NamedKeys[k]| <= |s| && Fold(s[..|NamedKeys[k]|]) == NamedKeys[k]
         && ShortcutTokens(s[|NamedKeys[k]|..])
  }

  /** What the shortcut expression matches: one or more repetitions. */
  predicate ShortcutPattern(s: string) {
    |s| > 0 && ShortcutTokens(s)
  }

  /** `validateShortcut`. */
  predicate ValidateShortcut(shortcut: JsValue) {
    shortcut.JsString? && ShortcutPattern(shortcut.s) && |shortcut.s| <= ShortcutMaxLength
  }

  /** Every named alternative is spelled with letters and spaces only. */
  lemma NamedKeysAreLettersAndSpaces(k: int, i: int)
    requires 0 <= k < |NamedKeys| && 0 <= i < |NamedKeys[k]|
    ensures IsAsciiLetter(NamedKeys[k][i]) || NamedKeys[k][i] == ' '
  {
  }

  /** A stretch that upper-cases to a named alternative is made of letters
      and spaces. */
  lemma NamedStretchIsSimple(s: string, k: int)
    requires 0 <= k < |NamedKeys| && |NamedKeys[k]| <= |s| && Fold(s[..|NamedKeys[k]|]) == NamedKeys[k]
    ensures forall i | 0 <= i < |NamedKeys[k]| :: ShortcutChar(s[i])
  {
    forall i | 0 <= i < |NamedKeys[k]|
      ensures ShortcutChar(s[i])
    {
      NamedKeysAreLettersAndSpaces(k, i);
      assert FoldChar(s[i]) == NamedKeys[k][i];
    }
  }

  /** The named alternatives add nothing: a text is a repetition of the
      alternatives exactly when each of its characters is a letter, a digit,
      `+` or whitespace. */
  lemma {:induction false} ShortcutTokensChars(s: string)
    ensures ShortcutTokens(s) <==> forall i | 0 <= i < |s| :: ShortcutChar(s[i])
    decreases |s|
  {
    if |s| > 0 {
      ShortcutTokensChars(s[1..]);
      assert forall i | 0 <= i < |s| - 1 :: s[1..][i] == s[i + 1];
      if exists k | 0 <= k < |NamedKeys| ::
           0 < |NamedKeys[k]| <= |s| && Fold(s[..|NamedKeys[k]|]) == NamedKeys[k]
           && ShortcutTokens(s[|NamedKeys[k]|..]) {
        var k :| 0 <= k < |NamedKeys| && 0 < |NamedKeys[k]| <= |s|
          && Fold(s[..|NamedKeys[k]|]) == NamedKeys[k] && ShortcutTokens(s[|NamedKeys[k]|..]);
        ShortcutTokensChars(s[|NamedKeys[k]|..]);
        NamedStepChars(s, k);
      }
    }
  }

  /** A named alternative followed by single-character alternatives is made
      of single-character alternatives only. */
  lemma NamedStepChars(s: string, k: int)
    requires 0 <= k < |NamedKeys| && |NamedKeys[k]| <= |s| && Fold(s[..|NamedKeys[k]|]) == NamedKeys[k]
    requires forall i | 0 <= i < |s[|NamedKeys[k]|..]| :: ShortcutChar(s[|NamedKeys[k]|..][i])
    ensures forall i | 0 <= i < |s| :: ShortcutChar(s[i])
  {
    var n := |NamedKeys[k]|;
    NamedStretchIsSimple(s, k);
    forall i | n <= i < |s|
      ensures ShortcutChar(s[i])
    {
      assert s[i] == s[n..][i - n];
    }
  }

  /** `validateShortcut` accepts exactly the texts of 1 to 50 characters
      each of which is a letter, a digit, `+` or whitespace. */
  lemma ValidateShortcutChars(s: string)
    ensures ValidateShortcut(JsString(s)) <==>
      1 <= |s| <= ShortcutMaxLength && forall i | 0 <= i < |s| :: ShortcutChar(s[i])
  {
    ShortcutTokensChars(s);
  }

  /** A shortcut written with `/` is always refused, and so is the default
      shortcut of every platform. */
  lemma SlashIsRejected(s: string, os: Platform.Os)
    ensures '/' in s ==> !ValidateShortcut(JsString(s))
    ensures !ValidateShortcut(JsString(Platform.DefaultShortcut(os)))
  {
    ValidateShortcutChars(s);
    var d := Platform.DefaultShortcut(os);
    ValidateShortcutChars(d);
    Platform.DefaultShortcutParts(os);
    assert d[|d| - 1] == '/';
  }

  // ---------------------------------------------------------------------
  // Correction style

  /** The values of the `CorrectionStyle` enumeration. */
  datatype CorrectionStyle = Correct | Formal | Informal | Concise | Detailed

  function StyleName(style: CorrectionStyle): string {
    match style
    case Correct => "correct"
    case Formal => "formal"
    case Informal => "informal"
    case Concise => "concise"
    case Detailed => "detailed"
  }

  const ValidStyles: seq<string> := ["correct", "formal", "informal", "concise", "detailed"]

  /** `validateCorrectionStyle`: one of the listed style names. */
  predicate ValidateCorrectionStyle(style: JsValue) {
    style.JsString? && style.s in ValidStyles
  }

  /** The style a name denotes, if any. */
  function StyleOf(name: string): (r: Option<CorrectionStyle>)
    ensures r.Some? ==> StyleName(r.value) == name
  {
    if name == "correct" then Some(Correct)
    else if name == "formal" then Some(Formal)
    else if name == "informal" then Some(Informal)
    else if name == "concise" then Some(Concise)
    else if name == "detailed" then Some(Detailed)
    else None
  }

  /** The accepted names are exactly the names of the enumeration's values,
      and a name read back gives its value. */
  lemma ValidStylesAreTheEnumeration(name: string, style: CorrectionStyle)
    ensures ValidateCorrectionStyle(JsString(name)) <==> StyleOf(name).Some?
    ensures StyleOf(StyleName(style)) == Some(style)
  {
    assert "correct"[2] != "concise"[2];
    assert "informal"[0] != "detailed"[0];
  }

  // ---------------------------------------------------------------------
  // IPC handlers

  const InvalidEmail := "Email inválido"
  const InvalidPassword := "Senha inválida"
  const InvalidShortcut := "Atalho inválido"
  const InvalidStyle := "Estilo de correção inválido"

  /** The part of the signed-in user the handlers read. */
  datatype User = User(email: string, shortcut: string)

  /** A call into the session service, which talks to the server and to
      the stored credentials. */
  datatype SessionCall =
    | SessionLogin(email: string, password: string)
    | SessionLogout
    | PersistShortcut(shortcut: string)
    | PersistStyle(style: CorrectionStyle)

  /** The keyboard service after a handler, the session calls it made in
      order, and what the handler resolves or rejects with. */
  datatype Handled<T> = Handled(keyboard: Keyboard.Service, calls: seq<SessionCall>, reply: Result<T, Thrown>)

  /** The `auth:login` handler. `session` is what the session service's
      login yields and `correct` the handle on the correction action. */
  function LoginHandler(os: Platform.Os, ks: Keyboard.Service, email: JsValue, password: JsValue,
                        session: Result<User, Thrown>, correct: Keyboard.Callback): (r: Handled<User>)
    ensures r.calls != [] <==> ValidateEmail(email) && ValidatePassword(password)
    ensures r.calls != [] ==> r.calls == [SessionLogin(email.s, password.s)]
    ensures !ValidateEmail(email) ==> r.reply == Err(Error(InvalidEmail))
    ensures ValidateEmail(email) && !ValidatePassword(password) ==> r.reply == Err(Error(InvalidPassword))
    ensures r.reply.Err? ==> r.keyboard == ks
    ensures r.reply.Ok? ==> r.calls != [] && session == Ok(r.reply.value)
    ensures r.reply.Ok? ==>
      r.keyboard == Keyboard.Register(ks, Platform.NormalizeShortcut(os, r.reply.value.shortcut), correct)
  {
    if !ValidateEmail(email) then Handled(ks, [], Err(Error(InvalidEmail)))
    else if !ValidatePassword(password) then Handled(ks, [], Err(Error(InvalidPassword)))
    else
      var calls := [SessionLogin(email.s, password.s)];
      match session
      case Err(e) => Handled(ks, calls, Err(e))
      case Ok(user) =>
        Handled(Keyboard.Register(ks, Platform.NormalizeShortcut(os, user.shortcut), correct), calls, Ok(user))
  }

  /** The `auth:logout` handler: signs out and destroys the keyboard
      service. */
  function LogoutHandler(ks: Keyboard.Service): (r: Handled<bool>)
    ensures r.calls == [SessionLogout] && r.reply.Ok?
    ensures r.keyboard.listener.None? && !r.keyboard.enabled
  {
    Handled(Keyboard.Destroy(ks), [SessionLogout], Ok(true))
  }

  /** The `settings:updateShortcut` handler. `persisted` is the failure of
      the session service's update, if it failed. */
  function UpdateShortcutHandler(os: Platform.Os, ks: Keyboard.Service, shortcut: JsValue,
                                 persisted: Option<Thrown>): (r: Handled<bool>)
    ensures !ValidateShortcut(shortcut) <==> r.calls == []
    ensures !ValidateShortcut(shortcut) ==> r.reply == Err(Error(InvalidShortcut)) && r.keyboard == ks
    ensures ValidateShortcut(shortcut) ==> r.calls == [PersistShortcut(shortcut.s)]
    ensures persisted.Some? ==> r.keyboard == ks
    ensures ValidateShortcut(shortcut) && persisted.None? ==>
      r.reply.Ok? && r.keyboard == Keyboard.UpdateShortcut(ks, Platform.NormalizeShortcut(os, shortcut.s))
  {
    if !ValidateShortcut(shortcut) then Handled(ks, [], Err(Error(InvalidShortcut)))
    else
      var calls := [PersistShortcut(shortcut.s)];
      match persisted
      case Some(e) => Handled(ks, calls, Err(e))
      case None => Handled(Keyboard.UpdateShortcut(ks, Platform.NormalizeShortcut(os, shortcut.s)), calls, Ok(true))
  }

  /** The `settings:updateCorrectionStyle` handler. */
  function UpdateCorrectionStyleHandler(ks: Keyboard.Service, style: JsValue, persisted: Option<Thrown>): (r: Handled<bool>)
    ensures r.keyboard == ks
    ensures !ValidateCorrectionStyle(style) <==> r.calls == []
    ensures !ValidateCorrectionStyle(style) ==> r.reply == Err(Error(InvalidStyle))
    ensures ValidateCorrectionStyle(style) ==>
      StyleOf(style.s).Some? && r.calls == [PersistStyle(StyleOf(style.s).value)]
    ensures r.reply.Ok? <==> ValidateCorrectionStyle(style) && persisted.None?
  {
    if !ValidateCorrectionStyle(style) then Handled(ks, [], Err(Error(InvalidStyle)))
    else
      ValidStylesAreTheEnumeration(style.s, Correct);
      var calls := [PersistStyle(StyleOf(style.s).value)];
      match persisted
      case Some(e) => Handled(ks, calls, Err(e))
      case None => Handled(ks, calls, Ok(true))
  }

  /** A shortcut typed in the settings window can never reach the keyboard
      service through the update handler if it contains `/`, so the default
      shortcut of every platform cannot be chosen again once changed. */
  lemma SlashShortcutNeverApplied(os: Platform.Os, ks: Keyboard.Service, s: string, persisted: Option<Thrown>)
    requires '/' in s
    ensures UpdateShortcutHandler(os, ks, JsString(s), persisted) == Handled(ks, [], Err(Error(InvalidShortcut)))
  {
    SlashIsRejected(s, os);
  }

  /** A successful login with a live listener arms the hotkey: afterwards a
      key event fires the correction action exactly when it matches the
      user's shortcut as normalised for the platform. */
  lemma LoginArmsHotkey(os: Platform.Os, ks: Keyboard.Service, email: JsValue, password: JsValue,
                        user: User, correct: Keyboard.Callback, e: Keyboard.KeyEvent)
    requires ks.listener.Some?
    requires ValidateEmail(email) && ValidatePassword(password)
    ensures var after := LoginHandler(os, ks, email, password, Ok(user), correct).keyboard;
      Keyboard.Dispatch(after, e) ==
        if Keyboard.Triggers(Keyboard.ParseShortcut(Platform.NormalizeShortcut(os, user.shortcut)), e)
        then [correct] else []
  {
    Keyboard.RegisterArms(ks, Platform.NormalizeShortcut(os, user.shortcut), correct, e);
  }

  /** A shortcut saved through the settings handler, with a live listener and
      a callback already registered, re-arms the hotkey: afterwards a key
      event fires the callback exactly when it matches the new shortcut as
      normalised for the platform. */
  lemma UpdateShortcutArmsHotkey(os: Platform.Os, ks: Keyboard.Service, s: string, e: Keyboard.KeyEvent)
    requires ks.listener.Some? && ks.callback.Some?
    requires ValidateShortcut(JsString(s))
    ensures var after := UpdateShortcutHandler(os, ks, JsString(s), None).keyboard;
      Keyboard.Dispatch(after, e) ==
        if Keyboard.Triggers(Keyboard.ParseShortcut(Platform.NormalizeShortcut(os, s)), e)
        then [ks.callback.value] else []
  {
    Keyboard.UpdateShortcutArms(ks, Platform.NormalizeShortcut(os, s), e);
  }

  /** Signing out through the handler and signing in again leaves the
      hotkey dead: logout destroys the listener and the login handler's
      `register` does not create a new one. */
  lemma LogoutThenLoginLeavesHotkeyDead(os: Platform.Os, ks: Keyboard.Service, email: JsValue, password: JsValue,
                                        user: User, correct: Keyboard.Callback, e: Keyboard.KeyEvent)
    ensures var out := LogoutHandler(ks).keyboard;
      var back := LoginHandler(os, out, email, password, Ok(user), correct);
      back.reply.Ok? ==> Keyboard.Dispatch(back.keyboard, e) == []
  {
    Keyboard.RegisterAfterDestroyIsInert(ks, Platform.NormalizeShortcut(os, user.shortcut), correct, e);
  }
}

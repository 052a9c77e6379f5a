# Habbit desktop: a Dafny model of the correction hotkey and its guards

Habbit is a tray application. It corrects the text a user has selected in any
other program. The user signs in. The application listens for a global
keyboard shortcut (`Ctrl+Shift+/` by default, `Cmd+Shift+/` on macOS). When the shortcut
is pressed, it copies the selection through the clipboard, sends it to the
correction server, pastes the corrected text back, and shows a small toast.

This project models the logic of that path, and the input checks that sit
on every boundary of it:

- `Platform`: the macOS predicate, and rewriting `Ctrl` to `Cmd`
  on macOS (`src/utils/platform.ts`).
- `Keyboard`: parsing a shortcut string, the key-event predicate of the
  global listener, and the service's `register`, `updateShortcut`, `enable`,
  `disable` and `destroy` (`src/services/keyboard.ts`).
- `Clipboard`: the OS command that simulates copy or paste, and the clipboard
  steps of capturing and replacing the selection (`src/services/clipboard.ts`).
- `Correction`: one run of the hotkey's action, the toast text sanitiser and
  the single toast slot (`src/services/correction.ts`).
- `ApiClient`: the per-endpoint rate limiter, its clean-up, the bearer token,
  and how failed requests become errors (`src/api/client.ts`).
- `Preload`: the renderer-to-main bridge's argument checks
  (`src/preload/preload.ts`).
- `Main`: the e-mail, password, shortcut and correction-style validators,
  and the login, logout and settings handlers (`src/main.ts`).
- `Settings` and `LoginForm`: the settings window's key capture, number and
  text sanitising and submit guards (`src/windows/settings.js`), and the login
  form's checks and loading state (`src/windows/login.js`).
- `Pipeline`: properties that cross those boundaries. A shortcut normalised
  for macOS never needs `Ctrl`. A captured key combination reads back as
  exactly the keys pressed. A captured symbol key passes the bridge but is
  refused by the main process. Credentials the login form accepts pass the
  main process's checks whenever the e-mail has at most 255 characters.
- `Text`, `Js` and `Wrappers` are shared helpers. `Text` holds JavaScript's
  whitespace set, `trim`, `split`, `join`, `slice`, `toUpperCase` (ASCII
  letters and every character whose upper case contains ASCII, such as `ß`
  becoming `SS`), and the case folding of a case-insensitive regular
  expression.
  `Js` holds a JavaScript value, a thrown value, truthiness and property
  reads.

Everything outside the process is a parameter of the model. That covers the
operating system's answer to a simulated key press, the server's reply, the
session service's outcome and the clock. Each operation is a pure function
from the state before to the state after, plus the list of effects it asks
for. A string is a sequence of Unicode scalar values. For text inside the
Basic Multilingual Plane that is one character per UTF-16 code unit, so `|s|`
is JavaScript's `length` there.

## Model

| member | source | states |
|---|---|---|
| Platform.NormalizeShortcut | src/utils/platform.ts:17-23 | Off macOS the shortcut is unchanged. On macOS the result contains no `CTRL` in any letter case, and a shortcut already free of it is unchanged. What replaces each occurrence is stated by `Platform.ReplaceCtrlHead`. |
| Platform.ReplaceCtrlHead | src/utils/platform.ts:20 | The macOS rewrite scans left to right: a case-insensitive `ctrl` at the front becomes `Cmd` and the scan resumes after it; any other first character is copied and the scan resumes at the next one. |
| Platform.NormalizeIdempotent | src/utils/platform.ts:17-23 | Normalising twice gives the same result as normalising once, on every platform. |
| Platform.NormalizeLeadingCtrl | src/utils/platform.ts:17-23 | For any rest, normalising `Ctrl` followed by it gives the platform's modifier key (`Cmd` on macOS, `Ctrl` elsewhere) followed by the normalised rest. |
| Platform.NormalizeDefaultShortcut | src/utils/platform.ts:35-37 | Normalising the Linux default shortcut for a platform gives exactly that platform's own default. |
| Platform.DefaultShortcutParts | src/utils/platform.ts:35-37 | The default shortcut is the platform's modifier key, then `+Shift+/`: `Cmd+Shift+/` on macOS and `Ctrl+Shift+/` everywhere else. |
| Platform.NormalizeModifierKey | src/utils/platform.ts:28-30 | Normalising `Ctrl` for a platform gives that platform's modifier key: `Cmd` on macOS, `Ctrl` elsewhere. |
| Keyboard.KeyNamesAppend | src/services/keyboard.ts:34-36 | The key list of a parsed shortcut keeps the non-modifier tokens in their order, so parsing distributes over concatenating token lists. |
| Keyboard.KeyNamesSingle | src/services/keyboard.ts:19-36 | One token yields no key if it is a modifier name. Otherwise it yields its listener name: symbols map to their names and other tokens pass through. |
| Keyboard.ParseIgnoresCase | src/services/keyboard.ts:15-17 | Parsing is case-insensitive: an upper-cased shortcut parses the same as the original. |
| Keyboard.ParseLongS | src/services/keyboard.ts:16 | Parsing upper-cases beyond ASCII: `Ctrl+ſhift+K` parses exactly as `Ctrl+Shift+K`, because `ſ` upper-cases to `S`. |
| Text.UpperIdempotent | src/services/keyboard.ts:16 | Upper-casing an upper-cased text changes nothing, including the characters that expand, such as `ß` to `SS`. |
| Text.UpperAscii | src/services/keyboard.ts:16 | On text made of ASCII characters, upper-casing maps each character on its own, changing exactly the letters `a` to `z`. |
| Text.UpperKeepsPlus | src/services/keyboard.ts:16 | Upper-casing neither creates nor removes a `+`, so it never moves the separators the parser splits on. |
| Keyboard.TokensOf | src/services/keyboard.ts:16-17 | A shortcut whose upper-case form is pieces joined by `+` splits into exactly those pieces, trimmed. |
| Keyboard.ParseExample | src/services/keyboard.ts:15-45 | `ctrl + /` and `CTRL+/` parse the same: the key `FORWARD SLASH` with only the Ctrl flag set. |
| Keyboard.ModifiersOnlyNeverTrigger | src/services/keyboard.ts:58-81 | A shortcut of modifiers only, such as `CTRL+SHIFT`, has no key, so no key event ever fires it. |
| Keyboard.ExactModifiers | src/services/keyboard.ts:58-81 | A shortcut with only Ctrl on the `/` key, which is what `CTRL+/` parses to, fires on a key-down of `/` with Ctrl held. It does not fire when Shift is held as well, and it does not fire on key-up. |
| Keyboard.Init | src/services/keyboard.ts:6-13 | A new service has a listener with no handlers and is not enabled. |
| Keyboard.Register | src/services/keyboard.ts:47-85 | With a live listener, register replaces every handler with one for the parsed shortcut and enables the service. With no listener, it only stores the shortcut and callback. |
| Keyboard.RegisterArms | src/services/keyboard.ts:47-85 | After register on a live listener, a key event fires the callback exactly once if it matches the parsed shortcut, and fires nothing otherwise. |
| Keyboard.UpdateShortcut | src/services/keyboard.ts:87-91 | With no callback registered the service is unchanged. Otherwise the callback is kept and the new shortcut is stored. With a live listener too, the listener is rebuilt with the one handler for the new shortcut and the service is enabled. Without a listener nothing is rebuilt and the enabled flag is kept. |
| Keyboard.UpdateShortcutArms | src/services/keyboard.ts:47-91 | After an update on a live listener with a stored callback, a key event fires that callback exactly once if it matches the new shortcut, and fires nothing otherwise. |
| Keyboard.Enable | src/services/keyboard.ts:93-95 | The service is enabled afterwards and stays well-formed. |
| Keyboard.Disable | src/services/keyboard.ts:97-99 | The service is disabled afterwards and stays well-formed. |
| Keyboard.Destroy | src/services/keyboard.ts:101-107 | The listener is gone and the service is disabled. The shortcut and callback stay stored. |
| Keyboard.DispatchFiresOnce | src/services/keyboard.ts:58-81 | A key event fires the callback at most once. It fires only when the service is enabled, a callback and exactly one handler exist, the event is a key-down and it matches. |
| Keyboard.RegisterAfterDestroyIsInert | src/services/keyboard.ts:101-107 | After destroy, register stores the new shortcut and callback but leaves the service disabled, so no key event fires anything. |
| Keyboard.RegisterRecreating | src/services/keyboard.ts:47-85 | The corrected register always ends with one live, enabled handler for the parsed shortcut. |
| Keyboard.RegisterRecreatingArms | src/services/keyboard.ts:47-85 | After destroy, the corrected register fires the callback on exactly the key events matching the shortcut. |
| Keyboard.RegisterRecreatingAgrees | src/services/keyboard.ts:47-85 | Whenever a listener exists, the corrected register gives the same service as the original one. |
| Clipboard.KeyCommand | src/services/clipboard.ts:71-98 | The simulated key press is a PowerShell `SendKeys` call exactly on Windows and an AppleScript keystroke exactly on macOS. Every other platform uses `xdotool`. |
| Clipboard.CommandPressesAction | src/services/clipboard.ts:71-98 | The command built for copy presses copy and the one built for paste presses paste, on every platform. |
| Clipboard.KeyCommandLine | src/services/clipboard.ts:71-98 | Copy and paste commands differ only in the one letter `c` or `v`, around a platform-specific text. |
| Clipboard.CopyAndPasteDiffer | src/services/clipboard.ts:71-98 | The copy command line and the paste command line are never the same. |
| Clipboard.Capture | src/services/clipboard.ts:12-37 | Capture first saves the clipboard, then clears it, then simulates copy. When the copy succeeds, the selection is returned and the clipboard is restored. When it fails, the result is empty and the clipboard is left cleared. |
| Clipboard.CaptureFollowsSteps | src/services/clipboard.ts:12-37 | Performing the recorded clipboard steps of a successful capture reproduces its outcome. It reads the old clipboard and then the selection. |
| Clipboard.CaptureFailureFollowsSteps | src/services/clipboard.ts:12-37 | When the copy fails, the recorded steps up to the failure read the old clipboard and leave the clipboard cleared. |
| Clipboard.Replace | src/services/clipboard.ts:43-66 | Replace saves the clipboard, writes the new text, waits and simulates paste. On success the selection becomes the text and the clipboard is restored. On failure the clipboard keeps the new text and the error is returned. |
| Clipboard.ReplaceFollowsSteps | src/services/clipboard.ts:43-66 | Performing the recorded steps of a successful replace puts the text on the clipboard before the paste and reproduces its outcome. |
| Clipboard.SetThenGet | src/services/clipboard.ts:103-112 | Reading the clipboard after writing it gives the written text. Writing back what was read restores the desktop. |
| Correction.StripAnglesKeeps | src/services/correction.ts:11-12 | Removing `<` and `>` leaves a text unchanged exactly when it has neither. |
| Correction.SanitizeMessage | src/services/correction.ts:9-14 | A toast message has no angle brackets and is exactly the first min(100, n) characters of the message with brackets removed, n being that text's length. |
| Correction.SanitizeKeeps | src/services/correction.ts:9-14 | Sanitising changes nothing exactly when the message has no brackets and at most 100 characters, and sanitising is idempotent. |
| Correction.CreateToast | src/services/correction.ts:16-22 | Creating a toast closes the previous one. Exactly one toast is open afterwards, a fresh one showing the sanitised message. |
| Correction.Expire | src/services/correction.ts:96-101 | When a toast's timer expires, whatever toast is current is closed and no toast stays open. |
| Correction.AtMostOneOpen | src/services/correction.ts:16-22 | At most one toast is open at a time, and one is open exactly when the slot holds a current toast. |
| Correction.StaleTimerClosesNewToast | src/services/correction.ts:96-101 | The first toast's timer also closes a second toast created before that timer expires. |
| Correction.EffectiveLanguage | src/services/correction.ts:106-110 | The language sent is always `pt`, `en` or `es`. A supported language is kept as given. |
| Correction.Run | src/services/correction.ts:104-147 | Every run of the hotkey action ends with exactly one toast, whichever step fails. |
| Correction.ApiCalledOnlyForUsableText | src/services/correction.ts:112-127 | The server is asked exactly when the copy produced text that is not blank and has at most 10000 characters. The request carries that text and the effective language. |
| Correction.NothingSelectedRun | src/services/correction.ts:113-118 | A failed copy or a blank selection shows only the "nothing selected" error toast. |
| Correction.LengthLimit | src/services/correction.ts:120-124 | A selection longer than 10000 characters shows only the "too long" error. One of exactly 10000 characters is sent to the server. |
| Correction.InvalidReplyRun | src/services/correction.ts:129-134 | A reply whose corrected text is not a non-empty string shows the invalid-reply error and leaves the desktop untouched. |
| Correction.SuccessRun | src/services/correction.ts:104-140 | With a valid reply and a working paste, the selection becomes the corrected text, the clipboard is restored, and the success toast is shown. |
| Correction.PasteFailureRun | src/services/correction.ts:136-146 | When the paste fails, the corrected text stays on the clipboard and the paste error's message is shown. |
| Correction.ServerErrorShowsTypeError | src/services/correction.ts:127-145 | Any reply body without a `correction` field, such as the error body a failed request returns, makes the run read `correctedText` of `undefined`. The run therefore shows that TypeError's message, not the server's. |
| Correction.ExampleRun | src/services/correction.ts:104-147 | A worked run: the sentence in the selection is replaced by the server's correction, with the clipboard restored. |
| ApiClient.Endpoint | src/api/client.ts:38 | A missing or empty request URL counts as the endpoint `unknown`. Any other URL is its own endpoint. |
| ApiClient.RequestKey | src/api/client.ts:55 | The counter key of a request starts with its endpoint. |
| ApiClient.RecentKeys | src/api/client.ts:43-48 | A counter key is counted exactly when it starts with the endpoint and its time is strictly within the last 60000 ms. |
| ApiClient.Admit | src/api/client.ts:38-55 | A request is refused with the rate-limit error exactly when 60 or more requests are counted for its endpoint. Otherwise it adds one entry keyed by endpoint and time, and leaves every other entry unchanged. |
| ApiClient.CountRecent | src/api/client.ts:42-48 | The counting loop over the map's entries returns exactly the number of counted keys. |
| ApiClient.AdmitRequest | src/api/client.ts:36-62 | The interceptor's loop decides the same as the set-based definition of admission. |
| ApiClient.AdmitCountsItself | src/api/client.ts:38-55 | An admitted request is counted for its own endpoint from then on. |
| ApiClient.SameMillisecondCountsOnce | src/api/client.ts:55 | Two admitted requests to one URL in the same millisecond share one counter entry: the second leaves the counters as the first left them. |
| ApiClient.LongerUrlsShareTheBudget | src/api/client.ts:45 | A request to a URL that extends another URL counts against the shorter URL's budget too. |
| ApiClient.Cleanup | src/api/client.ts:23-31 | The periodic clean-up keeps exactly the entries that are at most 60000 ms old, with their values unchanged. |
| ApiClient.CleanupKeepsDecisions | src/api/client.ts:23-55 | A clean-up run before a request never changes whether that request is admitted. |
| ApiClient.SetToken | src/api/client.ts:87-93 | Reading the token back returns what was set. |
| ApiClient.AuthorizationHeader | src/api/client.ts:58-60 | A bearer header is sent exactly when a non-empty token is set, and it is `Bearer ` followed by that token. |
| ApiClient.WithAuthorization | src/api/client.ts:58-60 | With a token, the headers gain only the `Authorization` entry. Without one they are unchanged. |
| ApiClient.BodyMessage | src/api/client.ts:72-75 | An array message is joined with `, `. Any other truthy message is shown as its `String` conversion: a string as itself, a number in decimal, `true`, or `[object Object]`. Otherwise the message is `Unknown error`. |
| ApiClient.ArrayMessageIsJoined | src/api/client.ts:73-74 | A message that is a list of texts, of any length, is shown as those texts joined with `, `. |
| Js.JoinValuesOfStrings | src/api/client.ts:74 | Joining a list of string values gives the same text as joining the strings themselves. |
| ApiClient.TranslateError | src/api/client.ts:70-83 | A response error is an `Error` carrying the body's message, as `BodyMessage` gives it. A request that got no answer shows the connection message. Anything else shows its own message, or `Request failed` when that is empty. |
| ApiClient.EveryStatusIsDelivered | src/api/client.ts:18 | Every HTTP status is handed to the caller as a response, never as an error. |
| ApiClient.ListMessageIsJoined | src/api/client.ts:73-74 | A two-element message list becomes one error text with the elements separated by `, `. |
| ApiClient.TextMessageIsShown | src/api/client.ts:73-77 | A non-empty string message is thrown as it is. |
| Preload.SanitizeString | src/preload/preload.ts:8-13 | A non-string argument is refused with the bridge's error. A string is cut to its first `maxLength` characters. |
| Preload.SanitizeKeepsShortStrings | src/preload/preload.ts:8-13 | A string is passed unchanged exactly when it fits the limit, and cutting twice gives the same result as cutting once. |
| Preload.Login | src/preload/preload.ts:19-23 | Login checks the e-mail before the password. It invokes `auth:login` with the e-mail cut to 255 characters and the password cut to 128. |
| Preload.UpdateShortcut | src/preload/preload.ts:28-31 | The shortcut is checked and cut to 50 characters before `settings:updateShortcut` is invoked. |
| Preload.UpdateCorrectionStyle | src/preload/preload.ts:32-35 | The style is checked and cut to 20 characters before `settings:updateCorrectionStyle` is invoked. |
| Preload.OnAuthStateChanged | src/preload/preload.ts:45-50 | A listener is accepted exactly when it is a function. |
| Preload.BridgeBoundsEveryArgument | src/preload/preload.ts:19-35 | Every string the bridge hands to the main process is within its limit. |
| Main.EmailShape | src/main.ts:130-133 | An accepted e-mail has no whitespace and exactly one `@`, with a non-empty part before it. |
| Main.MatchEmail | src/main.ts:131 | A single left-to-right scan accepts exactly the texts of the e-mail pattern: no whitespace, one `@`, and a `.` after the domain's first character that is not the last character. |
| Main.ValidateShortcutChars | src/main.ts:139-142 | A shortcut is accepted exactly when it is a string of 1 to 50 characters, each an ASCII letter, digit, `+` or whitespace. The named alternatives of the pattern add nothing. |
| Main.SlashIsRejected | src/main.ts:139-142 | A shortcut containing `/` is rejected, and so is the default shortcut of every platform. |
| Main.StyleOf | src/main.ts:144-147 | A recognised style name is exactly the name of the style it is read as. |
| Main.ValidStylesAreTheEnumeration | src/main.ts:144-147 | The accepted style names are exactly the names of the five correction styles. |
| Main.LoginHandler | src/main.ts:151-185 | The session service is called exactly when both the e-mail and the password are valid, and the e-mail is checked first. A rejected login leaves the keyboard service unchanged. A successful one registers the user's shortcut, normalised for the platform. |
| Main.LogoutHandler | src/main.ts:187-197 | Logout signs out and destroys the keyboard listener. |
| Main.UpdateShortcutHandler | src/main.ts:203-212 | An invalid shortcut is refused before anything is persisted. A failed save leaves the keyboard service unchanged. A successful save applies the shortcut, normalised for the platform. |
| Main.UpdateCorrectionStyleHandler | src/main.ts:214-221 | A style is persisted exactly when it is valid, never touches the keyboard service, and succeeds exactly when it is valid and the save succeeds. |
| Main.SlashShortcutNeverApplied | src/main.ts:203-212 | A shortcut containing `/` never reaches the keyboard service through the settings handler. |
| Main.LoginArmsHotkey | src/main.ts:151-167 | After a successful login with a live listener, a key event starts a correction exactly when it matches the user's normalised shortcut. |
| Main.UpdateShortcutArmsHotkey | src/main.ts:203-212 | After a valid shortcut is saved, with a live listener and a registered callback, a key event fires the callback exactly when it matches the new shortcut normalised for the platform. |
| Main.LogoutThenLoginLeavesHotkeyDead | src/main.ts:187-197 | A logout followed by a successful login leaves the hotkey dead: no key event starts a correction. |
| Settings.SanitizeAndLimit | src/windows/settings.js:11-14 | A non-string shows `Não definido`. A string is cut to the limit. |
| Settings.SanitizeNumber | src/windows/settings.js:69-72 | A shown number is between 0 and 999999. An unparsable value shows 0, and an in-range value is shown as it is. |
| Settings.SanitizeNumberIdempotent | src/windows/settings.js:69-72 | Sanitising a shown number again changes nothing. |
| Settings.CaptureTokens | src/windows/settings.js:41-51 | The captured tokens are the held modifiers in the order Ctrl, Alt, Shift, Cmd, then the upper-cased key unless the key is itself a modifier. |
| Settings.OnKeyDown | src/windows/settings.js:38-56 | The field is replaced by the tokens joined with `+` exactly when there is more than one token. Otherwise it is unchanged. |
| Settings.LonePressKeepsField | src/windows/settings.js:53-55 | A key pressed without any modifier leaves the field unchanged. |
| Settings.LoneModifierKeepsField | src/windows/settings.js:49-55 | Pressing a lone modifier key leaves the field unchanged. |
| Settings.SubmitShortcut | src/windows/settings.js:86-91 | A blank field submits nothing. Any other field submits its trimmed text. |
| Settings.SubmitStyle | src/windows/settings.js:105-110 | An empty style submits nothing. Any other style is submitted as it is. |
| Settings.FailureAlert | src/windows/settings.js:96-98 | A failed update alerts the prefix, followed by the error's message cut to 200 characters, or by `Erro desconhecido` when the message is empty. |
| Settings.NonStringMessageShowsNotDefined | src/windows/settings.js:97 | An error whose message is a non-zero number alerts `Não definido`. |
| LoginForm.CheckSubmit | src/windows/login.js:11-31 | The form calls login exactly when the trimmed e-mail and the password are non-empty, the e-mail matches the pattern and the password has at least 6 characters. Empty fields are reported first. |
| LoginForm.Submit | src/windows/login.js:8-52 | A failed check shows its message and changes nothing else. When the checks pass and the login succeeds, the form is loading with no error shown. An error with an empty message shows the generic login error. |
| LoginForm.FormEmailPassesMain | src/windows/login.js:11-31 | An e-mail the form accepts is accepted by the main process's pattern. |
| LoginForm.LoadingOnlyWhileLoggingIn | src/windows/login.js:33-51 | The form only shows loading while a login is in flight. A login that fails with an error stops loading and shows the error's message, or the generic login error. |
| Pipeline.MacShortcutNeverUsesCtrl | src/utils/platform.ts:17-23 | On macOS, no shortcut parsed after normalising ever requires Ctrl. |
| Pipeline.CaptureReadsBack | src/windows/settings.js:38-56 | A captured combination parses back to exactly the key and the modifiers that were held. |
| Pipeline.CapturedCharSubmitted | src/windows/settings.js:53-54 | A character of the upper-cased captured key that the shortcut pattern refuses still reaches the submitted shortcut, so the settings form sends it. |
| Pipeline.CapturedSymbolShortcutRefused | src/windows/settings.js:38-56 | A captured combination whose upper-cased key holds a character outside letters, digits, `+` and whitespace, such as `Ctrl+/`, passes the bridge but is refused by the main process. |
| Pipeline.EszettShortcutAccepted | src/windows/settings.js:50 | Upper-casing can also make a refused key acceptable: Ctrl with `ß` is captured and submitted as `Ctrl+SS`, which passes the main process's shortcut check although `ß` itself would not. |
| Pipeline.UpperAvoidsCtrl | src/services/keyboard.ts:16 | A text with no case-insensitive `ctrl` has no `CTRL` after upper-casing, even where upper-casing lengthens it. |
| Pipeline.FormCredentialsReachMain | src/windows/login.js:11-31 | Credentials the login form accepts pass the bridge. The password then passes the main process's check, and so does the e-mail whenever it has at most 255 characters. |
| Pipeline.LongAddressLogsInCut | src/preload/preload.ts:19-23 | An e-mail `local@host.tail` longer than 255 characters, with its `.` before position 254, passes the login form and is not refused. The bridge sends its first 255 characters, a different address, and the main process accepts them. |

## Left out

- Windows, tray, menus, the auto-updater, the navigation guard, window close and minimise (`src/main.ts` outside the handlers): these are Electron UI with no logic beyond calls into the modelled services.
- The `auth:getCurrentUser` and `stats:get` handlers only forward a call to the session service or the server.
- Logging in automatically from a stored token at start-up (`src/main.ts:282-301`) performs the same normalise-and-register step as the login handler, which is modelled.
- The shell commands and sleeps of the clipboard service are recorded as steps. Whether the operating system honours them is a parameter, `Sim`.
- The clock is a parameter. The clean-up timer runs as a function of the time it fires, and the toast's two-second timer is the `Expire` step.
- The network: the server's reply is a parameter, either any JSON value or a thrown value. The axios instance's other settings (base URL, fixed headers, timeout, redirects) are configuration.
- The session and storage services (`src/services/auth.ts`, `src/services/storage.ts`) are outside the core. Their outcomes are parameters of the handlers, and the logout there cannot fail.
- Toast window geometry, its HTML and the cursor position: only the message, the kind and which toast is open are modelled.
- Concurrency: overlapping hotkey runs and interleaved requests. Each run is one sequential function.
- Settings.SanitizeAndLimit: the HTML escaping done through a DOM element is not modelled. Only the type check and the cut are.
- Settings.SanitizeNumber: `parseInt` itself is not modelled. The function takes its result, `None` standing for `NaN`.
- LoginForm.Submit: the form assumes the bridge is present, so the missing-bridge error is not modelled. The HTML escaping of the shown message is not modelled either.
- Text.Upper: models `toUpperCase` for ASCII letters and for every character whose upper case contains an ASCII character (`ß`, `ı`, `ŉ`, `ſ`, `ǰ`, U+1E96 to U+1E9A and the ligatures U+FB00 to U+FB06). Every other character is kept as it is, so mappings from one non-ASCII character to others, such as `é` to `É` or `ΐ` to three characters, are not modelled. None of those produce an ASCII character, so they never create a modifier name, a `+` or a character the shortcut pattern accepts.
- Pipeline.CapturedCharSubmitted: speaks of the characters of the model's upper case. For a key whose non-ASCII upper case is not modelled, the real text carries that upper case in place of the key's character.
- Pipeline.CapturedSymbolShortcutRefused: the same limit as `Pipeline.CapturedCharSubmitted`. The conclusion holds in the source too, because an unmodelled upper case is never an ASCII character.
- Characters outside the Basic Multilingual Plane: JavaScript counts each as two UTF-16 code units and the model counts one. So the 10000-character text limit, the 100-character cut of the toast message, the bridge's limits of 255, 128, 50 and 20, the settings window's limits of 50 and 200, and the shortcut check's 50 all count such text differently, and a cut that falls inside a surrogate pair in JavaScript is not modelled.
- `isWindows` and `isLinux` (`src/utils/platform.ts:5-11`) have no caller in the modelled code. Only `isMac` decides anything.
- Preload.SanitizeString: the default limit of 1000 is not modelled, because every call in the bridge passes its own limit.
- Correction.Run: the toast is recorded as a `Notice` effect carrying the unsanitised message. The sanitising and the single toast slot are modelled separately, by `SanitizeMessage`, `CreateToast` and `Expire`.
- Clipboard.Capture: assumes that a simulated copy puts the selection on the clipboard, and that a simulated paste replaces the selection with the clipboard.
- Keyboard.Dispatch: the global listener's own key-name table is not modelled. An event carries the listener's name for its key.
- ApiClient.WithAuthorization: assumes the request always carries a headers object, as axios provides one.
- ApiClient.BodyMessage: converts non-string messages with the default conversion of plain values; objects with their own `toString` are not modelled.
- ApiClient.BodyMessage: a JSON number is modelled as an integer (`Js.JsNumber`), so a fractional message such as `1.5`, which `String` shows as `1.5`, cannot be represented. Floating point is outside the model.

## Findings

| source | as written | input that shows it | evidently intended | confidence | as-written member | corrected member |
|---|---|---|---|---|---|---|
| src/services/keyboard.ts:101-107 | `destroy` drops the global listener, and `register` only rebuilds the handlers of a listener that still exists. | Sign out through `auth:logout`, then sign in again through `auth:login` in the same process. The new shortcut is stored but the hotkey never fires until the application restarts. | `register` creates a listener when none exists, so signing in again arms the hotkey. | high; not executed | Keyboard.RegisterAfterDestroyIsInert | Keyboard.RegisterRecreating |

The as-written behaviour is also stated from the handlers' side by
`Main.LogoutThenLoginLeavesHotkeyDead`. The corrected register is proved to
arm the hotkey after destroy (`Keyboard.RegisterRecreatingArms`). It agrees
with the original whenever a listener exists
(`Keyboard.RegisterRecreatingAgrees`), so the handler properties proved for
a live listener, such as `Main.LoginArmsHotkey`, hold for it unchanged. The
handlers themselves call the register as written, because they model
`src/main.ts` as it stands.

Two further points where the code decides behaviour:

- The clipboard is not restored when a simulated copy or paste fails.
- An error reply from the server has no `correction` field, so the run shows
  a TypeError's message rather than the server's own message.

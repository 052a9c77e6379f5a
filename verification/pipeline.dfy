/** Properties that span several files: what the macOS rewrite does to the
    parsed hotkey, how a shortcut captured in the settings window reads back
    through the parser and fares with the main process's check, and how the
    login form, the bridge and the main process agree on credentials. */
module Pipeline {
  import opened Wrappers
  import opened Text
  import opened Js
  import Platform
  import Keyboard
  import Preload
  import Main
  import Settings
  import LoginForm

  // ---------------------------------------------------------------------
  // The macOS rewrite and the parser

  /** The `n` characters of `t` from index `i`. */
  function Window(t: string, i: nat, n: nat): string
    requires i + n <= |t|
  {
    t[i..i + n]
  }

  /** `t` has no occurrence of `w` anywhere. */
  predicate Avoids(t: string, w: string) {
    forall i: nat | i + |w| <= |t| :: Window(t, i, |w|) != w
  }

  /** The first piece of a split is a prefix of the text. */
  lemma {:induction false} SplitHeadIsPrefix(t: string, sep: char)
    ensures Split(t, sep)[0] <= t
    decreases |t|
  {
    if |t| > 0 {
      SplitHeadIsPrefix(t[1..], sep);
      assert [t[0]] + t[1..] == t;
    }
  }

  /** A text that avoids `w` avoids it in every prefix. */
  lemma AvoidsPrefix(t: string, w: string, p: string)
    requires Avoids(t, w) && p <= t
    ensures Avoids(p, w)
  {
    forall i: nat | i + |w| <= |p|
      ensures Window(p, i, |w|) != w
    {
      assert Window(p, i, |w|) == Window(t, i, |w|);
    }
  }

  /** A text that avoids `w` avoids it in its tail. */
  lemma AvoidsTail(t: string, w: string)
    requires Avoids(t, w) && |t| > 0
    ensures Avoids(t[1..], w)
  {
    forall i: nat | i + |w| <= |t| - 1
      ensures Window(t[1..], i, |w|) != w
    {
      assert forall j | 0 <= j < |w| :: Window(t[1..], i, |w|)[j] == t[i + 1 + j] == Window(t, i + 1, |w|)[j];
    }
  }

  /** The empty text avoids every non-empty word. */
  lemma AvoidsEmpty(w: string)
    requires |w| > 0
    ensures Avoids("", w)
  {
  }

  /** Splitting cannot create an occurrence: each piece avoids whatever the
      text avoids. */
  lemma {:induction false} SplitPiecesAvoid(t: string, sep: char, w: string)
    requires Avoids(t, w) && |w| > 0
    ensures forall k | 0 <= k < |Split(t, sep)| :: Avoids(Split(t, sep)[k], w)
    decreases |t|
  {
    if |t| > 0 {
      AvoidsTail(t, w);
      SplitPiecesAvoid(t[1..], sep, w);
      var rest := Split(t[1..], sep);
      AvoidsEmpty(w);
      if t[0] == sep {
        assert Split(t, sep) == [""] + rest;
      } else {
        SplitHeadIsPrefix(t[1..], sep);
        assert [t[0]] + rest[0] <= t;
        AvoidsPrefix(t, w, [t[0]] + rest[0]);
        assert Split(t, sep) == [[t[0]] + rest[0]] + rest[1..];
      }
    }
  }

  /** Trimming cannot create an occurrence either. */
  lemma TrimAvoids(p: string, w: string)
    requires Avoids(p, w)
    ensures Trim(p) != w
  {
    var a := LeadingSpaces(p);
    assert Trim(p) == w ==> Window(p, a, |w|) == w;
  }

  /** An upper-cased text that starts with `TRL` came from three characters
      that fold to `T`, `R` and `L`: no character's upper case carries an
      `R` or an `L` at its start unless it is one letter, and the only longer
      one starting with `T` continues with a combining diaeresis. */
  lemma UpperLeadingTrl(u: string)
    requires |Upper(u)| >= 3 && Upper(u)[0] == 'T' && Upper(u)[1] == 'R' && Upper(u)[2] == 'L'
    ensures |u| >= 3 && FoldChar(u[0]) == 'T' && FoldChar(u[1]) == 'R' && FoldChar(u[2]) == 'L'
  {
    var u1 := u[1..];
    UpperCons(u);
    assert Upper(u1)[0] == 'R' && Upper(u1)[1] == 'L';
    UpperCons(u1);
    var u2 := u1[1..];
    assert Upper(u2)[0] == 'L';
    UpperCons(u2);
  }

  /** A `CTRL` at the start of an upper-cased text is a case-insensitive
      `ctrl` at the start of the text. */
  lemma UpperLeadingCtrl(s: string)
    requires |s| >= 1 && UpperOf(s[0]) == [FoldChar(s[0])] && FoldChar(s[0]) == 'C'
    requires |Upper(s[1..])| >= 3 && Upper(s[1..])[0] == 'T' && Upper(s[1..])[1] == 'R' && Upper(s[1..])[2] == 'L'
    ensures Platform.CtrlAt(s, 0)
  {
    UpperLeadingTrl(s[1..]);
    assert Fold(s[0..4]) == "CTRL";
  }

  /** A text with no case-insensitive `ctrl` upper-cases to one with no
      `CTRL`, although upper-casing may lengthen it. */
  lemma {:induction false} UpperAvoidsCtrl(s: string)
    requires Platform.CtrlFree(s)
    ensures Avoids(Upper(s), "CTRL")
    decreases |s|
  {
    if |s| > 0 {
      var head := UpperOf(s[0]);
      var rest := Upper(s[1..]);
      forall i | 0 <= i <= |s[1..]| - 4
        ensures !Platform.CtrlAt(s[1..], i)
      {
        Platform.CtrlAtTail(s, i);
      }
      UpperAvoidsCtrl(s[1..]);
      UpperCons(s);
      forall k: nat | k + 4 <= |Upper(s)|
        ensures Window(Upper(s), k, 4) != "CTRL"
      {
        if k >= |head| {
          assert Window(Upper(s), k, 4) == Window(rest, k - |head|, 4);
        } else if Window(Upper(s), k, 4) == "CTRL" {
          assert Upper(s)[k] == Window(Upper(s), k, 4)[0] == 'C';
          assert head[k] == 'C';
          assert head == [FoldChar(s[0])] && k == 0;
          assert rest[0] == Upper(s)[1] == 'T' && rest[1] == Upper(s)[2] == 'R' && rest[2] == Upper(s)[3] == 'L';
          UpperLeadingCtrl(s);
        }
      }
    }
  }

  /** A text with no case-insensitive `ctrl` never parses with the control
      flag set. */
  lemma CtrlFreeNeverParsesCtrl(s: string)
    requires Platform.CtrlFree(s)
    ensures !Keyboard.ParseShortcut(s).ctrl
  {
    UpperAvoidsCtrl(s);
    var pieces := Split(Upper(s), '+');
    SplitPiecesAvoid(Upper(s), '+', "CTRL");
    var tokens := Keyboard.TrimAll(pieces);
    forall k | 0 <= k < |tokens|
      ensures tokens[k] != "CTRL"
    {
      TrimAvoids(pieces[k], "CTRL");
    }
  }

  /** On macOS the normalised shortcut never requires the control key: every
      `ctrl` has become `Cmd`. */
  lemma MacShortcutNeverUsesCtrl(shortcut: string)
    ensures !Keyboard.ParseShortcut(Platform.NormalizeShortcut(Platform.Darwin, shortcut)).ctrl
  {
    CtrlFreeNeverParsesCtrl(Platform.NormalizeShortcut(Platform.Darwin, shortcut));
  }

  // ---------------------------------------------------------------------
  // A captured shortcut read back by the parser

  function UpperAll(ts: seq<string>): (r: seq<string>)
    ensures |r| == |ts| && forall i | 0 <= i < |ts| :: r[i] == Upper(ts[i])
  {
    Map(Upper, ts)
  }

  /** Upper-casing a joined text upper-cases each piece. */
  lemma {:induction false} UpperJoin(ts: seq<string>)
    ensures Upper(Join(ts, "+")) == Join(UpperAll(ts), "+")
    decreases |ts|
  {
    if |ts| > 1 {
      UpperJoin(ts[1..]);
      assert UpperAll(ts)[1..] == UpperAll(ts[1..]);
      UpperAppend(ts[0] + "+", Join(ts[1..], "+"));
      UpperAppend(ts[0], "+");
      UpperCons("+");
    }
  }

  lemma TrimAllAppend(a: seq<string>, b: seq<string>)
    ensures Keyboard.TrimAll(a + b) == Keyboard.TrimAll(a) + Keyboard.TrimAll(b)
  {
    MapAppend(Trim, a, b);
  }

  /** What the parser sees of one optional modifier token. */
  lemma OptionalToken(held: bool, t: string, upper: string)
    requires Upper(t) == upper && Trim(upper) == upper
    ensures Keyboard.TrimAll(UpperAll(if held then [t] else [])) == if held then [upper] else []
  {
  }

  lemma UpperCtrl() ensures Upper("Ctrl") == "CTRL" && Trim("CTRL") == "CTRL" {
    var s := "Ctrl";
    assert forall i | 0 <= i < |s| :: IsAscii(s[i]);
    UpperAscii(s);
    assert Fold(s) == "CTRL";
    TrimUnchanged("CTRL");
  }

  lemma UpperAlt() ensures Upper("Alt") == "ALT" && Trim("ALT") == "ALT" {
    var s := "Alt";
    assert forall i | 0 <= i < |s| :: IsAscii(s[i]);
    UpperAscii(s);
    assert Fold(s) == "ALT";
    TrimUnchanged("ALT");
  }

  lemma UpperShift() ensures Upper("Shift") == "SHIFT" && Trim("SHIFT") == "SHIFT" {
    var s := "Shift";
    assert forall i | 0 <= i < |s| :: IsAscii(s[i]);
    UpperAscii(s);
    assert Fold(s) == "SHIFT";
    TrimUnchanged("SHIFT");
  }

  lemma UpperCmd() ensures Upper("Cmd") == "CMD" && Trim("CMD") == "CMD" {
    var s := "Cmd";
    assert forall i | 0 <= i < |s| :: IsAscii(s[i]);
    UpperAscii(s);
    assert Fold(s) == "CMD";
    TrimUnchanged("CMD");
  }

  /** The modifier tokens as the parser reads them. */
  function ParsedModifiers(ctrl: bool, alt: bool, shift: bool, meta: bool): seq<string> {
    (if ctrl then ["CTRL"] else []) + (if alt then ["ALT"] else [])
    + (if shift then ["SHIFT"] else []) + (if meta then ["CMD"] else [])
  }

  lemma UpperAllAppend(x: seq<string>, y: seq<string>)
    ensures UpperAll(x + y) == UpperAll(x) + UpperAll(y)
  {
    MapAppend(Upper, x, y);
  }

  /** Reading concatenated tokens reads each part. */
  lemma ReadAppend(x: seq<string>, y: seq<string>)
    ensures Keyboard.TrimAll(UpperAll(x + y)) == Keyboard.TrimAll(UpperAll(x)) + Keyboard.TrimAll(UpperAll(y))
  {
    UpperAllAppend(x, y);
    TrimAllAppend(UpperAll(x), UpperAll(y));
  }

  /** A token present when `held`, absent otherwise. */
  function Optional(held: bool, t: string): seq<string> {
    if held then [t] else []
  }

  /** What the parser sees of two optional tokens in a row. */
  lemma ReadPair(held1: bool, t1: string, u1: string, held2: bool, t2: string, u2: string)
    requires Upper(t1) == u1 && Trim(u1) == u1
    requires Upper(t2) == u2 && Trim(u2) == u2
    ensures Keyboard.TrimAll(UpperAll(Optional(held1, t1) + Optional(held2, t2))) == Optional(held1, u1) + Optional(held2, u2)
  {
    ReadAppend(Optional(held1, t1), Optional(held2, t2));
    OptionalToken(held1, t1, u1);
    OptionalToken(held2, t2, u2);
  }

  lemma ModifierTokensRead(ctrl: bool, alt: bool, shift: bool, meta: bool)
    ensures Keyboard.TrimAll(UpperAll(Settings.ModifierTokens(ctrl, alt, shift, meta))) == ParsedModifiers(ctrl, alt, shift, meta)
  {
    var front := Optional(ctrl, "Ctrl") + Optional(alt, "Alt");
    var back := Optional(shift, "Shift") + Optional(meta, "Cmd");
    assert Settings.ModifierTokens(ctrl, alt, shift, meta) == front + back;
    assert ParsedModifiers(ctrl, alt, shift, meta) ==
      (Optional(ctrl, "CTRL") + Optional(alt, "ALT")) + (Optional(shift, "SHIFT") + Optional(meta, "CMD"));
    UpperCtrl();
    UpperAlt();
    ReadPair(ctrl, "Ctrl", "CTRL", alt, "Alt", "ALT");
    UpperShift();
    UpperCmd();
    ReadPair(shift, "Shift", "SHIFT", meta, "Cmd", "CMD");
    ReadAppend(front, back);
  }

  /** No modifier token contains `+`. */
  lemma ModifierTokensHaveNoPlus(ctrl: bool, alt: bool, shift: bool, meta: bool)
    ensures forall i | 0 <= i < |Settings.ModifierTokens(ctrl, alt, shift, meta)| :: '+' !in Settings.ModifierTokens(ctrl, alt, shift, meta)[i]
  {
    var ts := Settings.ModifierTokens(ctrl, alt, shift, meta);
    assert forall i | 0 <= i < |ts| :: ts[i] in {"Ctrl", "Alt", "Shift", "Cmd"};
  }

  /** The key names of the modifier tokens: none. */
  lemma {:induction false} ParsedModifiersHaveNoKeys(ctrl: bool, alt: bool, shift: bool, meta: bool)
    ensures Keyboard.KeyNames(ParsedModifiers(ctrl, alt, shift, meta)) == []
  {
    var c: seq<string> := if ctrl then ["CTRL"] else [];
    var a: seq<string> := if alt then ["ALT"] else [];
    var s: seq<string> := if shift then ["SHIFT"] else [];
    var m: seq<string> := if meta then ["CMD"] else [];
    Keyboard.KeyNamesAppend(c + a + s, m);
    Keyboard.KeyNamesAppend(c + a, s);
    Keyboard.KeyNamesAppend(c, a);
    Keyboard.KeyNamesSingle("CTRL");
    Keyboard.KeyNamesSingle("ALT");
    Keyboard.KeyNamesSingle("SHIFT");
    Keyboard.KeyNamesSingle("CMD");
  }

  /** Which flags the parsed modifier tokens, followed by a key token that
      is no modifier name, set. */
  lemma ParsedModifiersFlags(ctrl: bool, alt: bool, shift: bool, meta: bool, key: string)
    requires key !in Keyboard.ModifierNames
    ensures var ts := ParsedModifiers(ctrl, alt, shift, meta) + [key];
      && ("CTRL" in ts <==> ctrl) && ("ALT" in ts <==> alt) && ("SHIFT" in ts <==> shift)
      && ("CMD" in ts || "COMMAND" in ts || "META" in ts <==> meta)
  {
    assert "ALT"[0] != "CMD"[0];
    assert "CTRL"[0] != "META"[0];
  }

  /** Upper-casing never introduces a `+`. */
  lemma UpperKeepsPlusFree(t: string)
    requires '+' !in t
    ensures '+' !in Upper(t)
  {
    UpperKeepsPlus(t);
  }

  /** The parser's tokens of `+`-free pieces joined with `+`: each piece
      upper-cased and trimmed. */
  lemma TokensOfJoin(ts: seq<string>)
    requires |ts| >= 1
    requires forall i | 0 <= i < |ts| :: '+' !in ts[i]
    ensures Keyboard.Tokens(Join(ts, "+")) == Keyboard.TrimAll(UpperAll(ts))
  {
    forall i | 0 <= i < |ts|
      ensures '+' !in UpperAll(ts)[i]
    {
      UpperKeepsPlusFree(ts[i]);
    }
    UpperJoin(ts);
    Keyboard.TokensOf(Join(ts, "+"), UpperAll(ts));
  }

  /** The captured tokens, read as the parser reads them. */
  lemma CapturedTokensRead(ctrl: bool, alt: bool, shift: bool, meta: bool, key: string)
    ensures Keyboard.TrimAll(UpperAll(Settings.ModifierTokens(ctrl, alt, shift, meta) + [Upper(key)])) ==
      ParsedModifiers(ctrl, alt, shift, meta) + [Trim(Upper(key))]
  {
    ReadAppend(Settings.ModifierTokens(ctrl, alt, shift, meta), [Upper(key)]);
    UpperIdempotent(key);
    assert UpperAll([Upper(key)]) == [Upper(key)];
    assert Keyboard.TrimAll([Upper(key)]) == [Trim(Upper(key))];
    ModifierTokensRead(ctrl, alt, shift, meta);
  }

  /** The tokens the parser sees in a captured shortcut. */
  lemma CapturedTokens(e: Settings.KeyDown)
    requires e.key !in Settings.ModifierKeys && '+' !in e.key
    ensures Keyboard.Tokens(Join(Settings.CaptureTokens(e), "+")) ==
      ParsedModifiers(e.ctrl, e.alt, e.shift, e.meta) + [Trim(Upper(e.key))]
  {
    var mods := Settings.ModifierTokens(e.ctrl, e.alt, e.shift, e.meta);
    var ts := Settings.CaptureTokens(e);
    assert ts == mods + [Upper(e.key)];
    UpperKeepsPlusFree(e.key);
    ModifierTokensHaveNoPlus(e.ctrl, e.alt, e.shift, e.meta);
    assert forall i | 0 <= i < |ts| :: '+' !in ts[i];
    TokensOfJoin(ts);
    CapturedTokensRead(e.ctrl, e.alt, e.shift, e.meta, e.key);
  }

  /** The specification built from the parsed modifiers and one key token
      that is no modifier name. */
  lemma SpecOfCapture(ctrl: bool, alt: bool, shift: bool, meta: bool, key: string)
    requires key !in Keyboard.ModifierNames
    ensures Keyboard.SpecOf(ParsedModifiers(ctrl, alt, shift, meta) + [key]) ==
      Keyboard.ShortcutSpec([Keyboard.KeyName(key)], ctrl, alt, shift, meta)
  {
    var parsed := ParsedModifiers(ctrl, alt, shift, meta);
    ParsedModifiersFlags(ctrl, alt, shift, meta, key);
    ParsedModifiersHaveNoKeys(ctrl, alt, shift, meta);
    Keyboard.KeyNamesAppend(parsed, [key]);
    Keyboard.KeyNamesSingle(key);
  }

  /** A shortcut captured in the settings window reads back through the
      parser as exactly the modifiers that were held and the key that was
      pressed, provided the key's own name contains no `+` and is not a
      modifier name. */
  lemma CaptureReadsBack(field: string, e: Settings.KeyDown)
    requires |Settings.CaptureTokens(e)| > 1
    requires e.key !in Settings.ModifierKeys
    requires '+' !in e.key && Trim(Upper(e.key)) !in Keyboard.ModifierNames
    ensures Keyboard.ParseShortcut(Settings.OnKeyDown(field, e)) ==
      Keyboard.ShortcutSpec([Keyboard.KeyName(Trim(Upper(e.key)))], e.ctrl, e.alt, e.shift, e.meta)
  {
    CapturedTokens(e);
    SpecOfCapture(e.ctrl, e.alt, e.shift, e.meta, Trim(Upper(e.key)));
  }

  // ---------------------------------------------------------------------
  // A captured shortcut and the main process's check

  /** The last piece of a join ends it. */
  lemma {:induction false} JoinEndsWithLast(ts: seq<string>, sep: string)
    requires |ts| >= 1
    ensures |ts[|ts| - 1]| <= |Join(ts, sep)|
    ensures Join(ts, sep)[|Join(ts, sep)| - |ts[|ts| - 1]|..] == ts[|ts| - 1]
    decreases |ts|
  {
    if |ts| > 1 {
      JoinEndsWithLast(ts[1..], sep);
      var rest := Join(ts[1..], sep);
      assert Join(ts, sep) == (ts[0] + sep) + rest;
    }
  }

  /** A captured combination ends with the upper-cased key. */
  lemma CapturedTextEndsWithKey(field: string, e: Settings.KeyDown)
    requires |Settings.CaptureTokens(e)| > 1 && e.key !in Settings.ModifierKeys
    ensures |Upper(e.key)| <= |Settings.OnKeyDown(field, e)|
    ensures Settings.OnKeyDown(field, e)[|Settings.OnKeyDown(field, e)| - |Upper(e.key)|..] == Upper(e.key)
  {
    JoinEndsWithLast(Settings.CaptureTokens(e), "+");
  }

  /** Trimming keeps every character that is not whitespace. */
  lemma TrimKeepsNonSpace(text: string, p: int)
    requires 0 <= p < |text| && !IsSpace(text[p])
    ensures text[p] in Trim(text)
  {
    var L := LeadingSpaces(text);
    assert !AllSpace(text);
    assert L <= p < L + |Trim(text)|;
    assert Trim(text)[p - L] == text[p];
  }

  /** A character outside the shortcut expression's alphabet in the
      upper-cased key survives into the text the settings window submits. */
  lemma CapturedCharSubmitted(field: string, e: Settings.KeyDown, i: int)
    requires |Settings.CaptureTokens(e)| > 1 && e.key !in Settings.ModifierKeys
    requires 0 <= i < |Upper(e.key)| && !Main.ShortcutChar(Upper(e.key)[i])
    ensures Settings.SubmitShortcut(Settings.OnKeyDown(field, e)).Some?
    ensures Upper(e.key)[i] in Settings.SubmitShortcut(Settings.OnKeyDown(field, e)).value
  {
    var text := Settings.OnKeyDown(field, e);
    CapturedTextEndsWithKey(field, e);
    var p := |text| - |Upper(e.key)| + i;
    assert text[p] == Upper(e.key)[i];
    TrimKeepsNonSpace(text, p);
  }

  /** The settings window captures shortcuts on any key, but the main
      process refuses every one whose key is a symbol, a punctuation mark or
      any other character outside letters, digits, `+` and whitespace:
      `Ctrl+/`, the default shortcut, can be captured but never saved. */
  lemma CapturedSymbolShortcutRefused(os: Platform.Os, ks: Keyboard.Service, field: string, e: Settings.KeyDown,
                                      i: int, persisted: Option<Thrown>)
    requires |Settings.CaptureTokens(e)| > 1 && e.key !in Settings.ModifierKeys
    requires 0 <= i < |Upper(e.key)| && !Main.ShortcutChar(Upper(e.key)[i])
    requires |Settings.OnKeyDown(field, e)| <= Preload.ShortcutMaxLength
    ensures var submitted := Settings.SubmitShortcut(Settings.OnKeyDown(field, e));
      && submitted.Some?
      && Preload.UpdateShortcut(JsString(submitted.value)) == Ok(Preload.Invoke("settings:updateShortcut", [submitted.value]))
      && Main.UpdateShortcutHandler(os, ks, JsString(submitted.value), persisted) == Main.Handled(ks, [], Err(Error(Main.InvalidShortcut)))
  {
    CapturedCharSubmitted(field, e, i);
    var submitted := Settings.SubmitShortcut(Settings.OnKeyDown(field, e)).value;
    Main.ValidateShortcutChars(submitted);
    var k :| 0 <= k < |submitted| && submitted[k] == Upper(e.key)[i];
  }

  /** Ctrl with `ß` is captured and submitted as `Ctrl+SS`. */
  lemma CaptureEszett(field: string)
    ensures Settings.SubmitShortcut(Settings.OnKeyDown(field, Settings.KeyDown("\U{00DF}", true, false, false, false))) == Some("Ctrl+SS")
  {
    var e := Settings.KeyDown("\U{00DF}", true, false, false, false);
    UpperCons(e.key);
    assert e.key[1..] == "";
    assert Upper(e.key) == "SS";
    assert e.key != Settings.ModifierKeys[0] && e.key != Settings.ModifierKeys[1];
    assert e.key != Settings.ModifierKeys[2] && e.key != Settings.ModifierKeys[3];
    assert Settings.CaptureTokens(e) == ["Ctrl", "SS"];
    assert ["Ctrl", "SS"][1..] == ["SS"];
    assert Settings.OnKeyDown(field, e) == "Ctrl+SS";
    TrimUnchanged("Ctrl+SS");
  }

  /** Upper-casing can turn a key outside the shortcut expression's alphabet
      into letters it accepts: Ctrl with `ß` is captured as `Ctrl+SS`, which
      the main process saves. */
  lemma EszettShortcutAccepted(field: string)
    ensures !Main.ShortcutChar('\U{00DF}')
    ensures Settings.SubmitShortcut(Settings.OnKeyDown(field, Settings.KeyDown("\U{00DF}", true, false, false, false))) == Some("Ctrl+SS")
    ensures Main.ValidateShortcut(JsString("Ctrl+SS"))
  {
    CaptureEszett(field);
    CtrlSsIsValid();
  }

  lemma CtrlSsIsValid()
    ensures Main.ValidateShortcut(JsString("Ctrl+SS"))
  {
    var text := "Ctrl+SS";
    assert forall i | 0 <= i < |text| :: Main.ShortcutChar(text[i]);
    Main.ValidateShortcutChars(text);
  }

  // ---------------------------------------------------------------------
  // Credentials from the login form to the main process

  /** Credentials the login form lets through always pass the bridge, and
      the password always passes the main process's check; the address
      passes it whenever it is at most 255 characters. A longer one arrives
      cut to 255 and is checked as cut (see `LongAddressLogsInCut`). */
  lemma FormCredentialsReachMain(emailField: string, password: string)
    requires LoginForm.CheckSubmit(emailField, password).CallLogin?
    ensures var sent := Preload.Login(JsString(Trim(emailField)), JsString(password));
      && sent.Ok?
      && Main.ValidatePassword(JsString(sent.value.args[1]))
      && (|Trim(emailField)| <= Main.EmailMaxLength ==> Main.ValidateEmail(JsString(sent.value.args[0])))
  {
  }

  /** A longer address the form accepts is not refused: the bridge cuts it
      to its first 255 characters, and when a `.` at least two places after
      the `@` falls before the cut, the cut text passes the main process's
      check, so the login goes ahead under a different address than the one
      typed. An address is written as `local@host.tail`, each part one or
      more characters that are neither whitespace nor `@`. */
  lemma LongAddressLogsInCut(local: string, host: string, tail: string, password: string)
    requires Main.EmailAtom(local) && Main.EmailAtom(host) && Main.EmailAtom(tail)
    requires |local| + |host| + 3 < Main.EmailMaxLength
    requires |local| + |host| + |tail| + 2 > Main.EmailMaxLength
    requires |password| >= LoginForm.MinPasswordLength
    ensures LoginForm.CheckSubmit(local + "@" + host + "." + tail, password).CallLogin?
    ensures Preload.Login(JsString(local + "@" + host + "." + tail), JsString(password))
      == Ok(Preload.Invoke("auth:login", [(local + "@" + host + "." + tail)[..Main.EmailMaxLength], Slice(password, Preload.PasswordMaxLength)]))
    ensures (local + "@" + host + "." + tail)[..Main.EmailMaxLength] != local + "@" + host + "." + tail
    ensures Main.ValidateEmail(JsString((local + "@" + host + "." + tail)[..Main.EmailMaxLength]))
  {
    var typed := local + "@" + host + "." + tail;
    var at, dot := |local|, |local| + 1 + |host|;
    assert typed[..at] == local;
    assert typed[at + 1..dot] == host;
    assert typed[dot + 1..] == tail;
    assert typed[at] == '@' && typed[dot] == '.';
    assert Main.EmailPattern(typed);
    TrimUnchanged(typed);
    PrefixKeepsPattern(typed, at, dot, dot, Main.EmailMaxLength);
  }

  /** Cutting a matched address after a `.` that follows its `@` by at
      least two places, and keeping a character after that `.`, leaves a
      matched address. */
  lemma PrefixKeepsPattern(t: string, at: int, d: int, dot: int, n: int)
    requires 0 <= at < d < |t| && t[at] == '@' && t[d] == '.'
    requires Main.EmailAtom(t[..at]) && Main.EmailAtom(t[at + 1..d]) && Main.EmailAtom(t[d + 1..])
    requires at + 1 < dot < n - 1 && n <= |t| && t[dot] == '.'
    ensures Main.EmailPattern(t[..n])
  {
    var c := t[..n];
    assert c[..at] == t[..at];
    var domain, top := c[at + 1..dot], c[dot + 1..];
    forall i | 0 <= i < |domain|
      ensures !IsSpace(domain[i]) && domain[i] != '@'
    {
      Main.EmailPatternChars(t, at, d, at + 1 + i);
    }
    forall i | 0 <= i < |top|
      ensures !IsSpace(top[i]) && top[i] != '@'
    {
      Main.EmailPatternChars(t, at, d, dot + 1 + i);
    }
    assert c[at] == '@' && c[dot] == '.';
    assert Main.EmailAtom(c[..at]) && Main.EmailAtom(domain) && Main.EmailAtom(top);
  }
}

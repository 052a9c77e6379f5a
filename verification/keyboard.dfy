/** The global hotkey (src/services/keyboard.ts): parsing a shortcut string
    into a specification, matching low-level key events against it, and the
    single-slot service that owns the listener. The key-listener library is
    represented by its events and by the handlers installed on it. */
module Keyboard {
  import opened Wrappers
  import opened Text

  /** A parsed shortcut: the non-modifier key names, in the order written,
      and the four modifier flags. */
  datatype ShortcutSpec = ShortcutSpec(keys: seq<string>, ctrl: bool, alt: bool, shift: bool, meta: bool)

  /** Tokens that set a modifier flag and are never key names. */
  const ModifierNames: set<string> := {"CTRL", "ALT", "SHIFT", "CMD", "COMMAND", "META"}

  /** Symbol tokens and the event names the listener library reports for them. */
  const SymbolNames: map<string, string> := map[
    "/" := "FORWARD SLASH", "SLASH" := "FORWARD SLASH",
    "\\" := "BACK SLASH", "BACKSLASH" := "BACK SLASH",
    "," := "COMMA", "." := "PERIOD", ";" := "SEMICOLON", "'" := "QUOTE",
    "[" := "LEFT BRACKET", "]" := "RIGHT BRACKET",
    "-" := "MINUS", "=" := "EQUAL"
  ]

  /** `keyMap[k] || k`. Every mapped name is non-empty, so the fallback only
      applies to tokens outside the table. */
  function KeyName(token: string): (r: string)
    ensures r !in ModifierNames <== token !in ModifierNames
  {
    if token in SymbolNames then SymbolNames[token] else token
  }

  /** Each piece trimmed. */
  function TrimAll(pieces: seq<string>): (r: seq<string>)
    ensures |r| == |pieces|
  {
    Map(Trim, pieces)
  }

  /** The uppercased shortcut split on `+`, each piece trimmed. */
  function Tokens(shortcut: string): (r: seq<string>)
    ensures |r| >= 1
  {
    TrimAll(Split(Upper(shortcut), '+'))
  }

  /** The non-modifier tokens mapped through the symbol table, order kept. */
  function KeyNames(tokens: seq<string>): (r: seq<string>)
    ensures forall i | 0 <= i < |r| :: r[i] !in ModifierNames
    ensures |r| <= |tokens|
  {
    if |tokens| == 0 then []
    else (if tokens[0] in ModifierNames then [] else [KeyName(tokens[0])]) + KeyNames(tokens[1..])
  }

  /** `parseShortcut`. */
  function ParseShortcut(shortcut: string): ShortcutSpec {
    SpecOf(Tokens(shortcut))
  }

  /** The specification the parser builds from the trimmed tokens. */
  function SpecOf(tokens: seq<string>): ShortcutSpec {
    ShortcutSpec(
      KeyNames(tokens),
      "CTRL" in tokens,
      "ALT" in tokens,
      "SHIFT" in tokens,
      "CMD" in tokens || "COMMAND" in tokens || "META" in tokens)
  }

  /** The key list is built token by token: concatenated token lists give
      concatenated key lists, so the order of keys is the order of tokens. */
  lemma {:induction false} KeyNamesAppend(a: seq<string>, b: seq<string>)
    ensures KeyNames(a + b) == KeyNames(a) + KeyNames(b)
    decreases |a|
  {
    if |a| > 0 {
      assert (a + b)[1..] == a[1..] + b;
      KeyNamesAppend(a[1..], b);
    } else {
      assert a + b == b;
    }
  }

  /** A single token contributes nothing if it is a modifier name and its
      table name otherwise. */
  lemma KeyNamesSingle(t: string)
    ensures KeyNames([t]) == if t in ModifierNames then [] else [KeyName(t)]
  {
    assert [t][1..] == [];
  }

  /** Parsing does not depend on letter case. */
  lemma ParseIgnoresCase(s: string)
    ensures ParseShortcut(Upper(s)) == ParseShortcut(s)
  {
    UpperIdempotent(s);
  }

  /** Parsing follows `toUpperCase` beyond ASCII: the long s `ſ` upper-cases
      to `S`, so `Ctrl+ſhift+K` is read as `Ctrl+Shift+K`. */
  lemma ParseLongS()
    ensures ParseShortcut("Ctrl+\U{017F}hift+K") == ParseShortcut("Ctrl+Shift+K")
  {
    var front, back := "Ctrl+", "hift+K";
    assert "Ctrl+\U{017F}hift+K" == front + ['\U{017F}'] + back;
    assert "Ctrl+Shift+K" == front + ['S'] + back;
    assert UpperOf('\U{017F}') == UpperOf('S');
    UpperSameCase(front, back, '\U{017F}', 'S');
  }

  /** Tokens of a shortcut whose `+`-separated pieces are known. */
  lemma TokensOf(shortcut: string, pieces: seq<string>)
    requires |pieces| >= 1
    requires forall i | 0 <= i < |pieces| :: '+' !in pieces[i]
    requires Upper(shortcut) == Join(pieces, "+")
    ensures Tokens(shortcut) == TrimAll(pieces)
  {
    SplitJoin(pieces, '+');
  }

  /** Tokens of a shortcut whose uppercase form is two `+`-free pieces
      joined by `+`. */
  lemma TokensOfPair(shortcut: string, a: string, b: string)
    requires '+' !in a && '+' !in b
    requires Upper(shortcut) == a + "+" + b
    ensures Tokens(shortcut) == [Trim(a), Trim(b)]
  {
    var p := [a, b];
    assert p[1..] == [b];
    assert Join(p, "+") == a + "+" + b;
    assert forall i | 0 <= i < |p| :: '+' !in p[i];
    SplitJoin(p, '+');
    assert TrimAll(p)[0] == Trim(a) && TrimAll(p)[1] == Trim(b);
  }

  lemma TrimCtrlSpace()
    ensures Trim("CTRL ") == "CTRL"
  {
    var s := "CTRL ";
    assert !IsSpace(s[0]) && IsSpace(s[4]) && !IsSpace(s[3]);
    assert LeadingSpaces(s) == 0;
    assert TrailingSpaces(s) == 1 by {
      assert s[..4] == "CTRL";
      assert TrailingSpaces("CTRL") == 0;
    }
    assert s[0..4] == "CTRL";
  }

  lemma TrimSpaceSlash()
    ensures Trim(" /") == "/"
  {
    var s := " /";
    assert IsSpace(s[0]) && !IsSpace(s[1]);
    assert LeadingSpaces(s) == 1 by {
      assert s[1..] == "/";
      assert LeadingSpaces("/") == 0;
    }
    assert TrailingSpaces(s) == 0;
    assert s[1..2] == "/";
  }

  lemma TrimCtrl()
    ensures Trim("CTRL") == "CTRL"
  {
    var w := "CTRL";
    assert !IsSpace(w[0]) && !IsSpace(w[3]);
    TrimUnchanged(w);
  }

  lemma TrimSlash()
    ensures Trim("/") == "/"
  {
    var w := "/";
    assert !IsSpace(w[0]);
    TrimUnchanged(w);
  }

  lemma TrimShift()
    ensures Trim("SHIFT") == "SHIFT"
  {
    var w := "SHIFT";
    assert !IsSpace(w[0]) && !IsSpace(w[4]);
    TrimUnchanged(w);
  }

  lemma UpperCtrlSlash()
    ensures Upper("CTRL+/") == "CTRL" + "+" + "/"
  {
    var s := "CTRL+/";
    assert forall i | 0 <= i < |s| :: IsAscii(s[i]);
    UpperAscii(s);
    assert Fold(s) == "CTRL" + "+" + "/";
  }

  lemma UpperCtrlShift()
    ensures Upper("CTRL+SHIFT") == "CTRL" + "+" + "SHIFT"
  {
    var s := "CTRL+SHIFT";
    assert forall i | 0 <= i < |s| :: IsAscii(s[i]);
    UpperAscii(s);
    assert Fold(s) == "CTRL" + "+" + "SHIFT";
  }

  lemma UpperSpacedCtrlSlash()
    ensures Upper("ctrl + /") == "CTRL " + "+" + " /"
  {
    var s := "ctrl + /";
    assert forall i | 0 <= i < |s| :: IsAscii(s[i]);
    UpperAscii(s);
    assert Fold(s) == "CTRL " + "+" + " /";
  }

  lemma TokensCtrlSlash()
    ensures Tokens("CTRL+/") == ["CTRL", "/"]
  {
    UpperCtrlSlash();
    TokensOfPair("CTRL+/", "CTRL", "/");
    TrimCtrl();
    TrimSlash();
  }

  lemma TokensSpacedCtrlSlash()
    ensures Tokens("ctrl + /") == ["CTRL", "/"]
  {
    UpperSpacedCtrlSlash();
    TokensOfPair("ctrl + /", "CTRL ", " /");
    TrimCtrlSpace();
    TrimSpaceSlash();
  }

  lemma TokensCtrlShift()
    ensures Tokens("CTRL+SHIFT") == ["CTRL", "SHIFT"]
  {
    UpperCtrlShift();
    TokensOfPair("CTRL+SHIFT", "CTRL", "SHIFT");
    TrimCtrl();
    TrimShift();
  }

  lemma SlashIsNotModifier()
    ensures "/" !in ModifierNames && KeyName("/") == "FORWARD SLASH"
  {
  }

  lemma KeyNamesCtrlSlash()
    ensures KeyNames(["CTRL", "/"]) == ["FORWARD SLASH"]
  {
    KeyNamesAppend(["CTRL"], ["/"]);
    KeyNamesSingle("CTRL");
    KeyNamesSingle("/");
    SlashIsNotModifier();
    assert ["CTRL", "/"] == ["CTRL"] + ["/"];
  }

  lemma SpecOfCtrlSlash()
    ensures SpecOf(["CTRL", "/"]) == ShortcutSpec(["FORWARD SLASH"], true, false, false, false)
  {
    KeyNamesCtrlSlash();
    var t := ["CTRL", "/"];
    assert t[0] == "CTRL" && t[1] == "/";
    assert "ALT" !in t && "SHIFT" !in t;
    assert "CMD" !in t && "COMMAND" !in t && "META" !in t;
  }

  /** Letter case and whitespace around `+` do not matter: `ctrl + /` and
      `CTRL+/` give the same specification, a `/` key with only ctrl. */
  lemma ParseExample()
    ensures ParseShortcut("ctrl + /") == ParseShortcut("CTRL+/")
    ensures ParseShortcut("CTRL+/") == ShortcutSpec(["FORWARD SLASH"], true, false, false, false)
  {
    TokensCtrlSlash();
    TokensSpacedCtrlSlash();
    SpecOfCtrlSlash();
  }

  /** A shortcut made of modifiers only has no key, so it can never trigger. */
  lemma ModifiersOnlyNeverTrigger(e: KeyEvent)
    ensures ParseShortcut("CTRL+SHIFT").keys == []
    ensures !Triggers(ParseShortcut("CTRL+SHIFT"), e)
  {
    TokensCtrlShift();
    KeyNamesAppend(["CTRL"], ["SHIFT"]);
    KeyNamesSingle("CTRL");
    KeyNamesSingle("SHIFT");
    assert ["CTRL", "SHIFT"] == ["CTRL"] + ["SHIFT"];
  }

  // ---------------------------------------------------------------------
  // Matching key events

  datatype KeyState = Down | Up

  /** An event of the listener library: the key's name (possibly absent), its
      transition, and which physical keys are held. */
  datatype KeyEvent = KeyEvent(name: Option<string>, state: KeyState, down: map<string, bool>)

  /** `down[left] || down[right] || false`: the logical modifier is held when
      either physical key is. */
  predicate Held(down: map<string, bool>, left: string, right: string) {
    (left in down && down[left]) || (right in down && down[right])
  }

  /** `event.name?.toUpperCase() || ''`. */
  function EventKeyName(e: KeyEvent): string {
    match e.name
    case Some(n) => Upper(n)
    case None => ""
  }

  /** The four logical modifiers of the event equal the specification's flags. */
  predicate ModifiersMatch(spec: ShortcutSpec, down: map<string, bool>) {
    && Held(down, "LEFT CTRL", "RIGHT CTRL") == spec.ctrl
    && Held(down, "LEFT ALT", "RIGHT ALT") == spec.alt
    && Held(down, "LEFT SHIFT", "RIGHT SHIFT") == spec.shift
    && Held(down, "LEFT META", "RIGHT META") == spec.meta
  }

  /** The test the installed handler applies to a down-event. */
  predicate Triggers(spec: ShortcutSpec, e: KeyEvent) {
    e.state == Down && ModifiersMatch(spec, e.down) && EventKeyName(e) in spec.keys
  }

  /** Modifier matching is exact: a ctrl-only shortcut on `/`, which is
      what `CTRL+/` parses to, fires with ctrl held and not with ctrl and
      shift held together, and only on a key-down. */
  lemma ExactModifiers(spec: ShortcutSpec)
    requires spec.ctrl && !spec.alt && !spec.shift && !spec.meta && "FORWARD SLASH" in spec.keys
    ensures Triggers(spec, KeyEvent(Some("forward slash"), Down, map["LEFT CTRL" := true]))
    ensures !Triggers(spec, KeyEvent(Some("forward slash"), Down, map["LEFT CTRL" := true, "RIGHT SHIFT" := true]))
    ensures !Triggers(spec, KeyEvent(Some("forward slash"), Up, map["LEFT CTRL" := true]))
  {
    UpperForwardSlash();
    CtrlOnlyMatches(spec);
  }

  lemma CtrlOnlyMatches(spec: ShortcutSpec)
    requires spec.ctrl && !spec.alt && !spec.shift && !spec.meta
    ensures ModifiersMatch(spec, map["LEFT CTRL" := true])
    ensures !ModifiersMatch(spec, map["LEFT CTRL" := true, "RIGHT SHIFT" := true])
  {
    var held := map["LEFT CTRL" := true];
    var both := map["LEFT CTRL" := true, "RIGHT SHIFT" := true];
    DistinctKeyNames();
    assert Held(held, "LEFT CTRL", "RIGHT CTRL");
    assert Held(both, "LEFT SHIFT", "RIGHT SHIFT");
  }

  /** The physical modifier names differ from `LEFT CTRL`. */
  lemma DistinctKeyNames()
    ensures "LEFT ALT" != "LEFT CTRL" && "RIGHT ALT" != "LEFT CTRL"
    ensures "LEFT SHIFT" != "LEFT CTRL" && "RIGHT SHIFT" != "LEFT CTRL"
    ensures "LEFT META" != "LEFT CTRL" && "RIGHT META" != "LEFT CTRL"
  {
    assert "LEFT SHIFT"[5] != "LEFT CTRL"[5];
    assert "LEFT META"[5] != "LEFT CTRL"[5];
    assert |"LEFT ALT"| != |"LEFT CTRL"|;
    assert |"RIGHT ALT"| == |"LEFT CTRL"| && "RIGHT ALT"[0] != "LEFT CTRL"[0];
    assert |"RIGHT META"| != |"LEFT CTRL"|;
  }

  lemma UpperForwardSlash()
    ensures Upper("forward slash") == "FORWARD SLASH"
  {
    var s := "forward slash";
    assert forall i | 0 <= i < |s| :: IsAscii(s[i]);
    UpperAscii(s);
    assert Fold(s) == "FORWARD SLASH";
  }

  // ---------------------------------------------------------------------
  // The keyboard service

  /** An opaque handle on the bound action. */
  type Callback = nat

  /** A live listener with the handlers added to it, in order; each handler
      carries the specification parsed when it was added. */
  datatype Listener = Listener(handlers: seq<ShortcutSpec>)

  /** The service's fields; `killed` counts listeners shut down so far. */
  datatype Service = Service(
    listener: Option<Listener>,
    shortcut: string,
    callback: Option<Callback>,
    enabled: bool,
    killed: nat)

  /** At most one handler is installed, and it matches the stored shortcut. */
  predicate Valid(ks: Service) {
    ks.listener.Some? ==>
      && |ks.listener.value.handlers| <= 1
      && forall i | 0 <= i < |ks.listener.value.handlers| ::
           ks.listener.value.handlers[i] == ParseShortcut(ks.shortcut)
  }

  /** The constructor: a fresh listener with no handler, disabled. */
  function Init(): (r: Service)
    ensures Valid(r) && !r.enabled && r.listener == Some(Listener([]))
  {
    Service(Some(Listener([])), "CTRL + /", None, false, 0)
  }

  /** `register`: stores the shortcut and callback; with a live listener, it
      kills it, installs a new one with exactly one handler and enables. */
  function Register(ks: Service, shortcut: string, cb: Callback): (r: Service)
    ensures Valid(r)
    ensures r.shortcut == shortcut && r.callback == Some(cb)
    ensures ks.listener.Some? ==> r.enabled && r.killed == ks.killed + 1 && r.listener == Some(Listener([ParseShortcut(shortcut)]))
    ensures ks.listener.None? ==> r.listener.None? && r.enabled == ks.enabled && r.killed == ks.killed
  {
    var stored := ks.(shortcut := shortcut, callback := Some(cb));
    if ks.listener.Some? then
      stored.(listener := Some(Listener([ParseShortcut(shortcut)])), enabled := true, killed := ks.killed + 1)
    else
      stored
  }

  /** `updateShortcut`: re-registers with the stored callback, if any. */
  function UpdateShortcut(ks: Service, shortcut: string): (r: Service)
    ensures ks.callback.None? ==> r == ks
    ensures ks.callback.Some? ==> r.callback == ks.callback && r.shortcut == shortcut
    ensures ks.callback.Some? && ks.listener.Some? ==>
      r.enabled && r.listener == Some(Listener([ParseShortcut(shortcut)])) && r.killed == ks.killed + 1
    ensures ks.callback.Some? && ks.listener.None? ==>
      r.listener.None? && r.enabled == ks.enabled && r.killed == ks.killed
    ensures Valid(ks) ==> Valid(r)
  {
    match ks.callback
    case None => ks
    case Some(cb) => Register(ks, shortcut, cb)
  }

  function Enable(ks: Service): (r: Service)
    ensures r.enabled && (Valid(ks) ==> Valid(r))
  {
    ks.(enabled := true)
  }

  function Disable(ks: Service): (r: Service)
    ensures !r.enabled && (Valid(ks) ==> Valid(r))
  {
    ks.(enabled := false)
  }

  /** `destroy`: kills the listener, if any, drops it and disables. */
  function Destroy(ks: Service): (r: Service)
    ensures Valid(r) && r.listener.None? && !r.enabled
    ensures r.shortcut == ks.shortcut && r.callback == ks.callback
  {
    ks.(listener := None, enabled := false, killed := if ks.listener.Some? then ks.killed + 1 else ks.killed)
  }

  /** What the handlers do with one event: each one whose test passes while
      the service is enabled invokes the callback stored at that moment. */
  function RunHandlers(handlers: seq<ShortcutSpec>, ks: Service, e: KeyEvent): (r: seq<Callback>)
    ensures |r| <= |handlers|
    ensures forall i | 0 <= i < |r| :: ks.callback == Some(r[i])
  {
    if |handlers| == 0 then []
    else
      var fired := ks.enabled && e.state == Down && Triggers(handlers[0], e) && ks.callback.Some?;
      (if fired then [ks.callback.value] else []) + RunHandlers(handlers[1..], ks, e)
  }

  /** The callbacks invoked when the listener library delivers `e`. */
  function Dispatch(ks: Service, e: KeyEvent): seq<Callback> {
    match ks.listener
    case None => []
    case Some(l) => RunHandlers(l.handlers, ks, e)
  }

  /** In a valid service one event invokes the bound action at most once, and
      does so exactly when the service is enabled, a handler is installed, an
      action is bound and the event matches the stored shortcut. */
  lemma DispatchFiresOnce(ks: Service, e: KeyEvent)
    requires Valid(ks)
    ensures |Dispatch(ks, e)| <= 1
    ensures Dispatch(ks, e) != [] <==>
      && ks.enabled && ks.callback.Some?
      && ks.listener.Some? && |ks.listener.value.handlers| == 1
      && Triggers(ParseShortcut(ks.shortcut), e)
    ensures Dispatch(ks, e) != [] ==> Dispatch(ks, e) == [ks.callback.value] && e.state == Down
  {
    if ks.listener.Some? {
      var hs := ks.listener.value.handlers;
      if |hs| == 1 {
        assert hs[1..] == [];
      }
    }
  }

  /** Registering on a live listener arms exactly the new shortcut with the
      new callback. */
  lemma RegisterArms(ks: Service, shortcut: string, cb: Callback, e: KeyEvent)
    requires ks.listener.Some?
    ensures Dispatch(Register(ks, shortcut, cb), e) ==
      if Triggers(ParseShortcut(shortcut), e) then [cb] else []
  {
    DispatchFiresOnce(Register(ks, shortcut, cb), e);
  }

  /** After `updateShortcut` on a live listener with a stored callback, a key
      event fires that callback exactly once if it matches the new shortcut,
      and fires nothing otherwise: the old shortcut is forgotten. */
  lemma UpdateShortcutArms(ks: Service, shortcut: string, e: KeyEvent)
    requires ks.listener.Some? && ks.callback.Some?
    ensures Dispatch(UpdateShortcut(ks, shortcut), e) ==
      if Triggers(ParseShortcut(shortcut), e) then [ks.callback.value] else []
  {
    RegisterArms(ks, shortcut, ks.callback.value, e);
  }

  /** After `destroy`, `register` stores the shortcut and callback but no
      event ever invokes the action again. */
  lemma RegisterAfterDestroyIsInert(ks: Service, shortcut: string, cb: Callback, e: KeyEvent)
    ensures Register(Destroy(ks), shortcut, cb).shortcut == shortcut
    ensures Register(Destroy(ks), shortcut, cb).callback == Some(cb)
    ensures !Register(Destroy(ks), shortcut, cb).enabled
    ensures Dispatch(Register(Destroy(ks), shortcut, cb), e) == []
  {
  }

  /** `register` as evidently intended: a missing listener is recreated, so
      the action is armed again after `destroy`. */
  function RegisterRecreating(ks: Service, shortcut: string, cb: Callback): (r: Service)
    ensures Valid(r) && r.enabled
    ensures r.shortcut == shortcut && r.callback == Some(cb)
    ensures r.listener == Some(Listener([ParseShortcut(shortcut)]))
  {
    Service(
      Some(Listener([ParseShortcut(shortcut)])), shortcut, Some(cb), true,
      if ks.listener.Some? then ks.killed + 1 else ks.killed)
  }

  /** With the corrected `register`, the shortcut works after `destroy`. */
  lemma RegisterRecreatingArms(ks: Service, shortcut: string, cb: Callback, e: KeyEvent)
    ensures Dispatch(RegisterRecreating(Destroy(ks), shortcut, cb), e) ==
      if Triggers(ParseShortcut(shortcut), e) then [cb] else []
  {
    DispatchFiresOnce(RegisterRecreating(Destroy(ks), shortcut, cb), e);
  }

  /** With a live listener both versions of `register` agree. */
  lemma RegisterRecreatingAgrees(ks: Service, shortcut: string, cb: Callback)
    requires ks.listener.Some?
    ensures RegisterRecreating(ks, shortcut, cb) == Register(ks, shortcut, cb)
  {
  }
}

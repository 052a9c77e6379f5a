/** The clipboard transaction (src/services/clipboard.ts): capturing the
    selected text by a simulated copy, and replacing it by a simulated paste,
    over one shared clipboard cell. The desktop is the pair of the clipboard
    and the focused application's selection; whether a simulated keystroke
    succeeds is a parameter. */
module Clipboard {
  import opened Wrappers
  import opened Js
  import opened Platform

  /** The state the transaction reads and changes. */
  datatype Desktop = Desktop(clipboard: string, selection: string)

  /** The two shortcuts the service simulates. */
  datatype Action = Copy | Paste

  /** The external program run to press the shortcut: PowerShell's
      `SendKeys`, an AppleScript keystroke with the command key held, or
      `xdotool key`. */
  datatype Command =
    | SendKeys(keys: string)
    | Keystroke(key: string)
    | Xdotool(chord: string)

  /** Whether the external program ran; a failure carries what `exec` threw. */
  datatype Sim = SimOk | SimFailed(error: Thrown)

  /** One observable step of a transaction, in the order it is performed. */
  datatype Step =
    | ReadClipboard
    | WriteClipboard(text: string)
    | Simulate(command: Command)
    | Sleep(ms: nat)

  function Letter(a: Action): char {
    match a
    case Copy => 'c'
    case Paste => 'v'
  }

  /** The platform dispatch of `simulateCopy` and `simulatePaste`. */
  function KeyCommand(os: Os, a: Action): (cmd: Command)
    ensures os == Win32 <==> cmd.SendKeys?
    ensures os == Darwin <==> cmd.Keystroke?
  {
    match os
    case Win32 => SendKeys(['^', Letter(a)])
    case Darwin => Keystroke([Letter(a)])
    case _ => Xdotool("ctrl+" + [Letter(a)])
  }

  const SendKeysPrefix := "powershell -command \"$wshell = New-Object -ComObject wscript.shell; $wshell.SendKeys('"
  const SendKeysSuffix := "')\""
  const KeystrokePrefix := "osascript -e 'tell application \"System Events\" to keystroke \""
  const KeystrokeSuffix := "\" using command down'"
  const XdotoolPrefix := "xdotool key "

  /** The shell command line `exec` receives. */
  function CommandLine(cmd: Command): string {
    match cmd
    case SendKeys(keys) => SendKeysPrefix + keys + SendKeysSuffix
    case Keystroke(key) => KeystrokePrefix + key + KeystrokeSuffix
    case Xdotool(chord) => XdotoolPrefix + chord
  }

  /** The shortcut a command presses, recovered from the command. */
  function ActionOf(cmd: Command): Action {
    var k := match cmd
      case SendKeys(keys) => keys
      case Keystroke(key) => key
      case Xdotool(chord) => chord;
    if |k| > 0 && k[|k| - 1] == 'v' then Paste else Copy
  }

  /** What the focused application does with the shortcut: a copy puts a
      non-empty selection on the clipboard, a paste replaces the selection
      with the clipboard. */
  function Press(d: Desktop, a: Action): Desktop {
    match a
    case Copy => if d.selection != "" then d.(clipboard := d.selection) else d
    case Paste => d.(selection := d.clipboard)
  }

  /** `getClipboard`. */
  function GetClipboard(d: Desktop): string {
    d.clipboard
  }

  /** `setClipboard`. */
  function SetClipboard(d: Desktop, text: string): (r: Desktop)
    ensures GetClipboard(r) == text && r.selection == d.selection
  {
    d.(clipboard := text)
  }

  // ---------------------------------------------------------------------
  // The step interpreter

  /** The desktop after some steps, and the texts the reads returned, in order. */
  datatype Trace = Trace(desktop: Desktop, seen: seq<string>)

  /** Performs one step; a simulated keystroke takes effect. */
  function Apply(t: Trace, s: Step): Trace {
    match s
    case ReadClipboard => t.(seen := t.seen + [t.desktop.clipboard])
    case WriteClipboard(text) => t.(desktop := t.desktop.(clipboard := text))
    case Simulate(cmd) => t.(desktop := Press(t.desktop, ActionOf(cmd)))
    case Sleep(_) => t
  }

  /** Performs the steps in order. */
  function Exec(t: Trace, steps: seq<Step>): Trace
    decreases |steps|
  {
    if |steps| == 0 then t else Exec(Apply(t, steps[0]), steps[1..])
  }

  /** Performing two step lists one after the other is performing their
      concatenation. */
  lemma {:induction false} ExecAppend(t: Trace, a: seq<Step>, b: seq<Step>)
    ensures Exec(t, a + b) == Exec(Exec(t, a), b)
    decreases |a|
  {
    if |a| == 0 {
      assert a + b == b;
    } else {
      assert (a + b)[1..] == a[1..] + b;
      ExecAppend(Apply(t, a[0]), a[1..], b);
    }
  }

  lemma ExecTwo(t: Trace, x: Step, y: Step)
    ensures Exec(t, [x, y]) == Apply(Apply(t, x), y)
  {
    assert [x, y][1..] == [y];
    assert [y][1..] == [];
    assert Exec(Apply(t, x), [y]) == Exec(Apply(Apply(t, x), y), []);
  }

  lemma ExecThree(t: Trace, x: Step, y: Step, z: Step)
    ensures Exec(t, [x, y, z]) == Apply(Apply(Apply(t, x), y), z)
  {
    assert [x, y, z][1..] == [y, z];
    ExecTwo(Apply(t, x), y, z);
  }

  lemma ExecFour(t: Trace, w: Step, x: Step, y: Step, z: Step)
    ensures Exec(t, [w, x, y, z]) == Apply(Apply(Apply(Apply(t, w), x), y), z)
  {
    assert [w, x, y, z][1..] == [x, y, z];
    ExecThree(Apply(t, w), x, y, z);
  }

  // ---------------------------------------------------------------------
  // Capture and replace

  /** The outcome of `captureSelectedText`: the text returned, the desktop
      afterwards and the steps performed. */
  datatype CaptureRun = CaptureRun(text: string, after: Desktop, steps: seq<Step>)

  /** `captureSelectedText`. It never throws. On success it returns the
      selection (the clipboard is cleared first, so an empty selection gives
      "" and never the old clipboard) and the clipboard is restored; when the
      simulated copy fails it returns "" and the clipboard stays cleared. */
  function Capture(os: Os, d: Desktop, sim: Sim): (r: CaptureRun)
    ensures sim.SimOk? ==> r.text == d.selection && r.after == d
    ensures sim.SimFailed? ==> r.text == "" && r.after == Desktop("", d.selection)
    ensures |r.steps| >= 3 && r.steps[..3] == [ReadClipboard, WriteClipboard(""), Simulate(KeyCommand(os, Copy))]
  {
    var original := d.clipboard;
    var cleared := d.(clipboard := "");
    var copying := [ReadClipboard, WriteClipboard(""), Simulate(KeyCommand(os, Copy))];
    match sim
    case SimFailed(_) => CaptureRun("", cleared, copying)
    case SimOk =>
      var copied := Press(cleared, Copy);
      var selected := copied.clipboard;
      CaptureRun(selected, copied.(clipboard := original),
        copying + [Sleep(100), ReadClipboard, WriteClipboard(original)])
  }

  /** The outcome of `replaceSelectedText`: the error rethrown, if any, the
      desktop afterwards and the steps performed. */
  datatype ReplaceRun = ReplaceRun(error: Option<Thrown>, after: Desktop, steps: seq<Step>)

  /** `replaceSelectedText`. On success the selection becomes the text and
      the clipboard is restored; when the simulated paste fails the error is
      rethrown and the clipboard keeps the text. */
  function Replace(os: Os, d: Desktop, text: string, sim: Sim): (r: ReplaceRun)
    ensures sim.SimOk? ==> r.error == None && r.after == Desktop(d.clipboard, text)
    ensures sim.SimFailed? ==> r.error == Some(sim.error) && r.after == Desktop(text, d.selection)
    ensures |r.steps| >= 4 && r.steps[..4] == [ReadClipboard, WriteClipboard(text), Sleep(50), Simulate(KeyCommand(os, Paste))]
  {
    var original := d.clipboard;
    var pasting := [ReadClipboard, WriteClipboard(text), Sleep(50), Simulate(KeyCommand(os, Paste))];
    match sim
    case SimFailed(e) => ReplaceRun(Some(e), d.(clipboard := text), pasting)
    case SimOk =>
      var pasted := Press(d.(clipboard := text), Paste);
      ReplaceRun(None, pasted.(clipboard := original), pasting + [Sleep(100), WriteClipboard(original)])
  }

  // ---------------------------------------------------------------------
  // Properties

  /** Every platform presses `c` for copy and `v` for paste, and the command
      the step interpreter sees is the shortcut that was meant. */
  lemma CommandPressesAction(os: Os, a: Action)
    ensures ActionOf(KeyCommand(os, a)) == a
  {
  }

  /** The command line of a platform's shortcut command, around the key. */
  function LineAround(os: Os): (string, string) {
    match os
    case Win32 => (SendKeysPrefix + "^", SendKeysSuffix)
    case Darwin => (KeystrokePrefix, KeystrokeSuffix)
    case _ => (XdotoolPrefix + "ctrl+", "")
  }

  lemma KeyCommandLine(os: Os, a: Action)
    ensures CommandLine(KeyCommand(os, a)) == LineAround(os).0 + [Letter(a)] + LineAround(os).1
  {
    var l := [Letter(a)];
    match os
    case Win32 =>
      assert SendKeysPrefix + (['^'] + l) + SendKeysSuffix == (SendKeysPrefix + "^") + l + SendKeysSuffix;
    case Darwin =>
    case _ =>
      assert XdotoolPrefix + ("ctrl+" + l) == (XdotoolPrefix + "ctrl+") + l + "";
  }

  /** Copy and paste never run the same command line: the two differ in the
      key letter. */
  lemma CopyAndPasteDiffer(os: Os)
    ensures CommandLine(KeyCommand(os, Copy)) != CommandLine(KeyCommand(os, Paste))
  {
    KeyCommandLine(os, Copy);
    KeyCommandLine(os, Paste);
    var i := |LineAround(os).0|;
    assert CommandLine(KeyCommand(os, Copy))[i] == 'c';
    assert CommandLine(KeyCommand(os, Paste))[i] == 'v';
  }

  /** Running the capture's steps on the desktop gives the capture's result:
      on success the second read is the returned text and the final desktop
      is the one returned. */
  lemma CaptureFollowsSteps(os: Os, d: Desktop)
    ensures var r := Capture(os, d, SimOk);
      Exec(Trace(d, []), r.steps) == Trace(r.after, [d.clipboard, r.text])
  {
    var r := Capture(os, d, SimOk);
    var copying := [ReadClipboard, WriteClipboard(""), Simulate(KeyCommand(os, Copy))];
    var restoring := [Sleep(100), ReadClipboard, WriteClipboard(d.clipboard)];
    assert r.steps == copying + restoring;
    CommandPressesAction(os, Copy);
    ExecAppend(Trace(d, []), copying, restoring);
    ExecThree(Trace(d, []), copying[0], copying[1], copying[2]);
    var t := Exec(Trace(d, []), copying);
    assert t == Trace(Press(d.(clipboard := ""), Copy), [d.clipboard]);
    ExecThree(t, restoring[0], restoring[1], restoring[2]);
  }

  /** When the copy fails, the steps performed before it leave the clipboard
      empty. */
  lemma CaptureFailureFollowsSteps(os: Os, d: Desktop, e: Thrown)
    ensures var r := Capture(os, d, SimFailed(e));
      Exec(Trace(d, []), r.steps[..2]) == Trace(r.after, [d.clipboard])
  {
    var s := Capture(os, d, SimFailed(e)).steps[..2];
    assert s == [ReadClipboard, WriteClipboard("")];
    ExecTwo(Trace(d, []), ReadClipboard, WriteClipboard(""));
  }

  /** Running the replacement's steps on the desktop gives its result, and
      the clipboard holds the text at the moment of the paste. */
  lemma ReplaceFollowsSteps(os: Os, d: Desktop, text: string)
    ensures var r := Replace(os, d, text, SimOk);
      && Exec(Trace(d, []), r.steps[..3]).desktop.clipboard == text
      && Exec(Trace(d, []), r.steps) == Trace(r.after, [d.clipboard])
  {
    var r := Replace(os, d, text, SimOk);
    var pasting := [ReadClipboard, WriteClipboard(text), Sleep(50), Simulate(KeyCommand(os, Paste))];
    var restoring := [Sleep(100), WriteClipboard(d.clipboard)];
    assert r.steps == pasting + restoring;
    assert r.steps[..3] == [ReadClipboard, WriteClipboard(text), Sleep(50)];
    CommandPressesAction(os, Paste);
    ExecThree(Trace(d, []), ReadClipboard, WriteClipboard(text), Sleep(50));
    ExecAppend(Trace(d, []), pasting, restoring);
    ExecFour(Trace(d, []), pasting[0], pasting[1], pasting[2], pasting[3]);
    var t := Exec(Trace(d, []), pasting);
    assert t == Trace(Press(d.(clipboard := text), Paste), [d.clipboard]);
    ExecTwo(t, restoring[0], restoring[1]);
  }

  /** Setting the clipboard and reading it back gives the text set. */
  lemma SetThenGet(d: Desktop, text: string)
    ensures GetClipboard(SetClipboard(d, text)) == text
    ensures SetClipboard(SetClipboard(d, text), GetClipboard(d)) == d
  {
  }
}

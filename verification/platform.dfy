/** Platform detection and the macOS rewrite of shortcut strings
    (src/utils/platform.ts). The running platform is a parameter. */
module Platform {
  import opened Text

  /** The values of `process.platform` the application distinguishes. */
  datatype Os = Win32 | Darwin | Linux | OtherUnix

  predicate IsMac(os: Os) {
    os == Darwin
  }

  /** A case-insensitive occurrence of `ctrl` starts at index `i` of `s`. */
  predicate CtrlAt(s: string, i: int) {
    0 <= i && i + 4 <= |s| && Fold(s[i..i + 4]) == "CTRL"
  }

  /** `s` contains no case-insensitive occurrence of `ctrl`. */
  predicate CtrlFree(s: string) {
    forall i | 0 <= i <= |s| - 4 :: !CtrlAt(s, i)
  }

  /** `s.replace(/ctrl/gi, 'Cmd')`: occurrences are found left to right and
      do not overlap; everything else is copied in order. */
  function ReplaceCtrl(s: string): (r: string)
    decreases |s|
  {
    if |s| < 4 then s
    else if CtrlAt(s, 0) then "Cmd" + ReplaceCtrl(s[4..])
    else [s[0]] + ReplaceCtrl(s[1..])
  }

  /** `normalizeShortcut`: rewrites `ctrl` to `Cmd` on macOS only. */
  function NormalizeShortcut(os: Os, shortcut: string): (r: string)
    ensures !IsMac(os) ==> r == shortcut
    ensures IsMac(os) ==> CtrlFree(r)
    ensures CtrlFree(shortcut) ==> r == shortcut
  {
    if IsMac(os) then
      ReplaceCtrlIsCtrlFree(shortcut);
      ReplaceCtrlKeepsCtrlFree(shortcut);
      ReplaceCtrl(shortcut)
    else
      ReplaceCtrlKeepsCtrlFree(shortcut);
      shortcut
  }

  /** `getModifierKey`. */
  function ModifierKey(os: Os): string {
    if IsMac(os) then "Cmd" else "Ctrl"
  }

  /** `getDefaultShortcut`. */
  function DefaultShortcut(os: Os): string {
    if IsMac(os) then "Cmd+Shift+/" else "Ctrl+Shift+/"
  }

  /** A shift of the window by one character. */
  lemma CtrlAtTail(s: string, i: int)
    requires |s| >= 1 && 0 <= i
    ensures CtrlAt(s[1..], i) <==> CtrlAt(s, i + 1)
  {
    if i + 5 <= |s| {
      assert s[1..][i..i + 4] == s[i + 1..i + 5];
    }
  }

  /** How `ReplaceCtrl` treats the first character of a non-empty text. */
  lemma {:induction false} ReplaceCtrlHead(t: string)
    requires |t| >= 1
    ensures CtrlAt(t, 0) ==> ReplaceCtrl(t) == "Cmd" + ReplaceCtrl(t[4..])
    ensures !CtrlAt(t, 0) ==> ReplaceCtrl(t) == [t[0]] + ReplaceCtrl(t[1..])
  {
    if |t| < 4 {
      assert [t[0]] + t[1..] == t;
    }
  }

  /** If the rewritten text does not start with a `c` of either case, its
      first character was copied from the input. */
  lemma ReplaceCtrlCopiesHead(t: string)
    requires |ReplaceCtrl(t)| >= 1 && FoldChar(ReplaceCtrl(t)[0]) != 'C'
    ensures |t| >= 1 && ReplaceCtrl(t) == [t[0]] + ReplaceCtrl(t[1..])
  {
    if |t| >= 1 {
      ReplaceCtrlHead(t);
    }
  }

  /** The output of the macOS rewrite contains no `ctrl` in any case. */
  lemma {:induction false} ReplaceCtrlIsCtrlFree(s: string)
    ensures CtrlFree(ReplaceCtrl(s))
    decreases |s|
  {
    if |s| < 4 {
    } else if CtrlAt(s, 0) {
      ReplaceCtrlIsCtrlFree(s[4..]);
      CmdPrefixIsCtrlFree(ReplaceCtrl(s[4..]));
    } else {
      ReplaceCtrlIsCtrlFree(s[1..]);
      CopiedHeadIsCtrlFree(s);
    }
  }

  /** `Cmd` in front of a `ctrl`-free text creates no `ctrl`. */
  lemma CmdPrefixIsCtrlFree(rest: string)
    requires CtrlFree(rest)
    ensures CtrlFree("Cmd" + rest)
  {
    var r := "Cmd" + rest;
    forall i | 0 <= i <= |r| - 4
      ensures !CtrlAt(r, i)
    {
      if i == 0 {
        assert Fold(r[i..i + 4])[1] == FoldChar(r[1]) == 'M';
      } else if i == 1 {
        assert Fold(r[i..i + 4])[0] == FoldChar(r[1]) == 'M';
      } else if i == 2 {
        assert Fold(r[i..i + 4])[0] == FoldChar(r[2]) == 'D';
      } else {
        assert r[i..i + 4] == rest[i - 3..i + 1];
        assert !CtrlAt(rest, i - 3);
      }
    }
  }

  /** Copying a first character that does not start `ctrl` in front of the
      rewritten rest creates no `ctrl`. */
  lemma CopiedHeadIsCtrlFree(s: string)
    requires |s| >= 4 && !CtrlAt(s, 0)
    requires CtrlFree(ReplaceCtrl(s[1..]))
    ensures CtrlFree([s[0]] + ReplaceCtrl(s[1..]))
  {
    var rest := ReplaceCtrl(s[1..]);
    var r := [s[0]] + rest;
    forall i | 0 <= i <= |r| - 4
      ensures !CtrlAt(r, i)
    {
      if i == 0 {
        CopiedHeadNoCtrlAtStart(s);
      } else {
        assert r[i..i + 4] == rest[i - 1..i + 3];
        assert !CtrlAt(rest, i - 1);
      }
    }
  }

  /** A `ctrl` at the start of the rewritten text would have to come from
      a `ctrl` at the start of the input. */
  lemma CopiedHeadNoCtrlAtStart(s: string)
    requires |s| >= 4 && !CtrlAt(s, 0)
    ensures !CtrlAt([s[0]] + ReplaceCtrl(s[1..]), 0)
  {
    var t := s[1..];
    var r := [s[0]] + ReplaceCtrl(t);
    if CtrlAt(r, 0) {
      var w := r[0..4];
      assert Fold(w)[1] == 'T' && Fold(w)[2] == 'R' && Fold(w)[3] == 'L';
      assert ReplaceCtrl(t)[0] == r[1];
      ReplaceCtrlCopiesHead(t);
      var t1 := t[1..];
      assert ReplaceCtrl(t1)[0] == r[2];
      ReplaceCtrlCopiesHead(t1);
      var t2 := t1[1..];
      assert ReplaceCtrl(t2)[0] == r[3];
      ReplaceCtrlCopiesHead(t2);
      assert false;
    }
  }

  /** A text without `ctrl` is left unchanged by the macOS rewrite. */
  lemma {:induction false} ReplaceCtrlKeepsCtrlFree(s: string)
    ensures CtrlFree(s) ==> ReplaceCtrl(s) == s
    decreases |s|
  {
    if CtrlFree(s) && |s| >= 4 {
      assert !CtrlAt(s, 0);
      forall i | 0 <= i <= |s[1..]| - 4
        ensures !CtrlAt(s[1..], i)
      {
        CtrlAtTail(s, i);
      }
      ReplaceCtrlKeepsCtrlFree(s[1..]);
      assert [s[0]] + s[1..] == s;
    }
  }

  /** Normalising twice is normalising once. */
  lemma NormalizeIdempotent(os: Os, s: string)
    ensures NormalizeShortcut(os, NormalizeShortcut(os, s)) == NormalizeShortcut(os, s)
  {
  }

  lemma ShiftSlashIsCtrlFree()
    ensures CtrlFree("+Shift+/")
  {
    var tail := "+Shift+/";
    forall i | 0 <= i <= |tail| - 4
      ensures !CtrlAt(tail, i)
    {
      assert Fold(tail[i..i + 4])[0] == FoldChar(tail[i]) != 'C';
    }
  }

  /** A shortcut that starts with `Ctrl` normalises to the platform's
      modifier name followed by the normalised rest. */
  lemma NormalizeLeadingCtrl(os: Os, tail: string)
    ensures NormalizeShortcut(os, "Ctrl" + tail) == ModifierKey(os) + NormalizeShortcut(os, tail)
  {
    if IsMac(os) {
      var s := "Ctrl" + tail;
      assert s[..4] == "Ctrl";
      assert CtrlAt(s, 0);
      assert s[4..] == tail;
      ReplaceCtrlHead(s);
    }
  }

  lemma DefaultShortcutParts(os: Os)
    ensures DefaultShortcut(os) == ModifierKey(os) + "+Shift+/"
  {
  }

  /** The non-macOS default shortcut normalises to the platform's own default. */
  lemma NormalizeDefaultShortcut(os: Os)
    ensures NormalizeShortcut(os, DefaultShortcut(Linux)) == DefaultShortcut(os)
  {
    ShiftSlashIsCtrlFree();
    assert NormalizeShortcut(os, "+Shift+/") == "+Shift+/";
    DefaultShortcutParts(Linux);
    DefaultShortcutParts(os);
    NormalizeLeadingCtrl(os, "+Shift+/");
  }

  /** The `Ctrl` modifier name normalises to the platform's modifier name. */
  lemma NormalizeModifierKey(os: Os)
    ensures NormalizeShortcut(os, "Ctrl") == ModifierKey(os)
  {
    assert CtrlAt("Ctrl", 0);
    assert "Ctrl"[4..] == "";
    assert ReplaceCtrl("Ctrl") == "Cmd" + ReplaceCtrl("");
  }
}

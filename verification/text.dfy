/** String primitives with JavaScript's semantics, as the application's
    TypeScript and browser code uses them. A `string` is a sequence of
    Unicode scalar values, so `|s|` is JavaScript's `s.length` for text
    inside the Basic Multilingual Plane, where every character is one UTF-16
    code unit. */
module Text {

  /** The characters matched by the regular-expression class `\s` and removed
      by `String.prototype.trim`: the WhiteSpace and LineTerminator code points
      of ECMAScript. */
  predicate IsSpace(c: char) {
    || c == '\t' || c == '\n' || c == '\U{000B}' || c == '\U{000C}' || c == '\r'
    || c == ' ' || c == '\U{00A0}' || c == '\U{1680}'
    || ('\U{2000}' <= c <= '\U{200A}')
    || c == '\U{2028}' || c == '\U{2029}' || c == '\U{202F}' || c == '\U{205F}'
    || c == '\U{3000}' || c == '\U{FEFF}'
  }

  predicate IsAsciiLetter(c: char) {
    'a' <= c <= 'z' || 'A' <= c <= 'Z'
  }

  predicate IsAsciiDigit(c: char) {
    '0' <= c <= '9'
  }

  /** No character of `s` is whitespace. */
  predicate NoSpace(s: string) {
    forall i | 0 <= i < |s| :: !IsSpace(s[i])
  }

  /** Every character of `s` is whitespace (vacuously true of ""). */
  predicate AllSpace(s: string) {
    forall i | 0 <= i < |s| :: IsSpace(s[i])
  }

  predicate IsAscii(c: char) {
    c <= '\U{007F}'
  }

  /** The character a regular expression with the `i` flag and without the
      `u` flag compares in place of `c`. The real canonicalisation replaces a
      character by its upper case when that is one character and is not an
      ASCII character standing for a non-ASCII one; the expressions here are
      written in ASCII, so upper-casing the ASCII letters alone decides the
      same matches. */
  function FoldChar(c: char): (r: char)
    ensures IsAsciiLetter(r) <==> IsAsciiLetter(c)
    ensures IsAscii(r) <==> IsAscii(c)
    ensures !('a' <= r <= 'z')
    ensures 'A' <= c <= 'Z' || !IsAsciiLetter(c) ==> r == c
  {
    if 'a' <= c <= 'z' then (c as int - 32) as char else c
  }

  /** `FoldChar` on every character: how a case-insensitive expression
      sees a text. */
  function Fold(s: string): (r: string)
    ensures |r| == |s|
    ensures forall i | 0 <= i < |s| :: r[i] == FoldChar(s[i])
  {
    seq(|s|, i requires 0 <= i < |s| => FoldChar(s[i]))
  }

  /** `toUpperCase` on one character: the ASCII letters, and every other
      character whose upper case contains an ASCII character. Some of those
      grow: `ß` becomes `SS`, and the ligatures U+FB00 to U+FB06 become two
      or three letters. */
  function UpperOf(c: char): (r: string)
    ensures 1 <= |r| <= 3
    ensures IsAscii(c) ==> r == [FoldChar(c)]
    ensures '+' in r <==> c == '+'
    ensures 'C' in r || r[0] == 'R' || r[0] == 'L' ==> r == [FoldChar(c)]
    ensures r[0] == 'T' ==> r == [FoldChar(c)] || r == "T\U{0308}"
    ensures r == [c] || forall j | 0 <= j < |r| :: (IsAscii(r[j]) && !('a' <= r[j] <= 'z')) || IsCaseMark(r[j])
  {
    if c == '\U{00DF}' then "SS"
    else if c == '\U{0131}' then "I"
    else if c == '\U{0149}' then "\U{02BC}N"
    else if c == '\U{017F}' then "S"
    else if c == '\U{01F0}' then "J\U{030C}"
    else if c == '\U{1E96}' then "H\U{0331}"
    else if c == '\U{1E97}' then "T\U{0308}"
    else if c == '\U{1E98}' then "W\U{030A}"
    else if c == '\U{1E99}' then "Y\U{030A}"
    else if c == '\U{1E9A}' then "A\U{02BE}"
    else if c == '\U{FB00}' then "FF"
    else if c == '\U{FB01}' then "FI"
    else if c == '\U{FB02}' then "FL"
    else if c == '\U{FB03}' then "FFI"
    else if c == '\U{FB04}' then "FFL"
    else if c == '\U{FB05}' || c == '\U{FB06}' then "ST"
    else [FoldChar(c)]
  }

  /** The pieces written one after the other. */
  function Concat(parts: seq<string>): string
    decreases |parts|
  {
    if |parts| == 0 then "" else parts[0] + Concat(parts[1..])
  }

  lemma {:induction false} ConcatAppend(a: seq<string>, b: seq<string>)
    ensures Concat(a + b) == Concat(a) + Concat(b)
    decreases |a|
  {
    if |a| > 0 {
      assert (a + b)[0] == a[0] && (a + b)[1..] == a[1..] + b;
      ConcatAppend(a[1..], b);
      assert a[0] + (Concat(a[1..]) + Concat(b)) == (a[0] + Concat(a[1..])) + Concat(b);
    } else {
      assert a + b == b;
    }
  }

  /** `String.prototype.toUpperCase`: each character's upper case, in order. */
  function Upper(s: string): string {
    Concat(Map(UpperOf, s))
  }

  /** The upper case of a non-empty text starts with that of its first
      character. */
  lemma UpperCons(s: string)
    requires |s| >= 1
    ensures Upper(s) == UpperOf(s[0]) + Upper(s[1..])
  {
    assert Map(UpperOf, s)[1..] == Map(UpperOf, s[1..]);
  }

  lemma UpperAppend(a: string, b: string)
    ensures Upper(a + b) == Upper(a) + Upper(b)
  {
    MapAppend(UpperOf, a, b);
    ConcatAppend(Map(UpperOf, a), Map(UpperOf, b));
  }

  /** Two characters with the same upper case are interchangeable under
      upper-casing. */
  lemma UpperSameCase(front: string, back: string, a: char, b: char)
    requires UpperOf(a) == UpperOf(b)
    ensures Upper(front + [a] + back) == Upper(front + [b] + back)
  {
    UpperAppend(front + [a], back);
    UpperAppend(front, [a]);
    UpperAppend(front + [b], back);
    UpperAppend(front, [b]);
    UpperCons([a]);
    UpperCons([b]);
  }

  /** Upper-casing never shortens a text and at most triples it. */
  lemma {:induction false} UpperLength(s: string)
    ensures |s| <= |Upper(s)| <= 3 * |s|
    decreases |s|
  {
    if |s| > 0 {
      UpperCons(s);
      UpperLength(s[1..]);
    }
  }

  /** On ASCII text upper-casing is the character-wise `Fold`. */
  lemma {:induction false} UpperAscii(s: string)
    requires forall i | 0 <= i < |s| :: IsAscii(s[i])
    ensures Upper(s) == Fold(s)
    decreases |s|
  {
    if |s| > 0 {
      UpperCons(s);
      UpperAscii(s[1..]);
      assert Fold(s) == [FoldChar(s[0])] + Fold(s[1..]);
    }
  }

  /** The marks that follow a letter in some upper cases. */
  predicate IsCaseMark(c: char) {
    c == '\U{02BC}' || c == '\U{02BE}' || c == '\U{0308}' || c == '\U{030A}' || c == '\U{030C}' || c == '\U{0331}'
  }

  /** The marks are their own upper case. */
  lemma CaseMarkIsUpper(m: char)
    requires IsCaseMark(m)
    ensures UpperOf(m) == [m]
  {
  }

  /** Every character of an upper case is its own upper case. */
  lemma UpperOfChars(c: char)
    ensures forall j | 0 <= j < |UpperOf(c)| :: UpperOf(UpperOf(c)[j]) == [UpperOf(c)[j]]
  {
    var r := UpperOf(c);
    forall j | 0 <= j < |r|
      ensures UpperOf(r[j]) == [r[j]]
    {
      if IsCaseMark(r[j]) {
        CaseMarkIsUpper(r[j]);
      }
    }
  }

  /** A text of characters that are their own upper case is its own upper
      case. */
  lemma {:induction false} UpperFixed(s: string)
    requires forall j | 0 <= j < |s| :: UpperOf(s[j]) == [s[j]]
    ensures Upper(s) == s
    decreases |s|
  {
    if |s| > 0 {
      UpperCons(s);
      UpperFixed(s[1..]);
      assert [s[0]] + s[1..] == s;
    }
  }

  /** Upper-casing twice is upper-casing once. */
  lemma {:induction false} UpperIdempotent(s: string)
    ensures Upper(Upper(s)) == Upper(s)
    decreases |s|
  {
    if |s| > 0 {
      UpperCons(s);
      UpperIdempotent(s[1..]);
      UpperOfChars(s[0]);
      UpperFixed(UpperOf(s[0]));
      UpperAppend(UpperOf(s[0]), Upper(s[1..]));
    }
  }

  /** Upper-casing never introduces a `+`, nor removes one. */
  lemma {:induction false} UpperKeepsPlus(s: string)
    ensures '+' in Upper(s) <==> '+' in s
    decreases |s|
  {
    if |s| > 0 {
      UpperCons(s);
      UpperKeepsPlus(s[1..]);
      assert s == [s[0]] + s[1..];
    }
  }

  /** The number of whitespace characters at the start of `s`. */
  function LeadingSpaces(s: string): (n: nat)
    ensures n <= |s|
    ensures forall i | 0 <= i < n :: IsSpace(s[i])
    ensures n < |s| ==> !IsSpace(s[n])
    decreases |s|
  {
    if |s| > 0 && IsSpace(s[0]) then 1 + LeadingSpaces(s[1..]) else 0
  }

  /** The number of whitespace characters at the end of `s`. */
  function TrailingSpaces(s: string): (n: nat)
    ensures n <= |s|
    ensures forall i | |s| - n <= i < |s| :: IsSpace(s[i])
    ensures n < |s| ==> !IsSpace(s[|s| - 1 - n])
    decreases |s|
  {
    if |s| > 0 && IsSpace(s[|s| - 1]) then 1 + TrailingSpaces(s[..|s| - 1]) else 0
  }

  /** `String.prototype.trim`: the characters between the leading and the
      trailing whitespace. The result is a contiguous part of the input that
      starts right after the leading whitespace; every character dropped is
      whitespace; the result is empty exactly when the input is all
      whitespace, and otherwise neither starts nor ends with whitespace. */
  function Trim(s: string): (r: string)
    ensures |r| <= |s| - LeadingSpaces(s)
    ensures r == s[LeadingSpaces(s)..LeadingSpaces(s) + |r|]
    ensures forall i | 0 <= i < |s| :: IsSpace(s[i]) || LeadingSpaces(s) <= i < LeadingSpaces(s) + |r|
    ensures r == "" <==> AllSpace(s)
    ensures |r| > 0 ==> !IsSpace(r[0]) && !IsSpace(r[|r| - 1])
  {
    var a := LeadingSpaces(s);
    if a == |s| then ""
    else
      var b := TrailingSpaces(s);
      s[a..|s| - b]
  }

  /** Text that neither starts nor ends with whitespace is its own trim. */
  lemma TrimUnchanged(s: string)
    requires |s| == 0 || (!IsSpace(s[0]) && !IsSpace(s[|s| - 1]))
    ensures Trim(s) == s
  {
  }

  /** `String.prototype.split` with a one-character separator: the pieces
      between separators, in order; there is always at least one piece. */
  function Split(s: string, sep: char): (r: seq<string>)
    ensures |r| >= 1
    decreases |s|
  {
    if |s| == 0 then [""]
    else
      var rest := Split(s[1..], sep);
      if s[0] == sep then [""] + rest
      else [[s[0]] + rest[0]] + rest[1..]
  }

  /** `Array.prototype.join`: the pieces with `sep` between neighbours. */
  function Join(parts: seq<string>, sep: string): string
    decreases |parts|
  {
    if |parts| == 0 then ""
    else if |parts| == 1 then parts[0]
    else parts[0] + sep + Join(parts[1..], sep)
  }

  lemma {:induction false} SplitNoSeparator(s: string, sep: char)
    requires sep !in s
    ensures Split(s, sep) == [s]
    decreases |s|
  {
    if |s| > 0 {
      SplitNoSeparator(s[1..], sep);
      assert [s[0]] + s[1..] == s;
    }
  }

  /** `Split` of a text that starts with the separator. */
  lemma {:induction false} SplitConsSep(t: string, sep: char)
    ensures Split([sep] + t, sep) == [""] + Split(t, sep)
  {
    assert ([sep] + t)[1..] == t;
  }

  /** `Split` of a text that starts with another character. */
  lemma {:induction false} SplitConsOther(c: char, t: string, sep: char)
    requires c != sep
    ensures Split([c] + t, sep) == [[c] + Split(t, sep)[0]] + Split(t, sep)[1..]
  {
    assert ([c] + t)[1..] == t;
  }

  /** Splitting distributes over a separator placed between two texts. */
  lemma {:induction false} SplitAround(a: string, b: string, sep: char)
    ensures Split(a + [sep] + b, sep) == Split(a, sep) + Split(b, sep)
    decreases |a|
  {
    if |a| == 0 {
      assert a + [sep] + b == [sep] + b;
      SplitConsSep(b, sep);
    } else {
      SplitAround(a[1..], b, sep);
      var c := a[0];
      assert [c] + a[1..] == a;
      assert a + [sep] + b == [c] + (a[1..] + [sep] + b);
      if c == sep {
        SplitAroundSep(a[1..], b, sep);
      } else {
        SplitAroundOther(c, a[1..], b, sep);
      }
    }
  }

  lemma {:induction false} SplitAroundSep(a: string, b: string, sep: char)
    requires Split(a + [sep] + b, sep) == Split(a, sep) + Split(b, sep)
    ensures Split([sep] + (a + [sep] + b), sep) == Split([sep] + a, sep) + Split(b, sep)
  {
    SplitConsSep(a + [sep] + b, sep);
    SplitConsSep(a, sep);
    var L, B := Split(a, sep), Split(b, sep);
    assert [""] + (L + B) == ([""] + L) + B;
  }

  lemma {:induction false} SplitAroundOther(c: char, a: string, b: string, sep: char)
    requires c != sep
    requires Split(a + [sep] + b, sep) == Split(a, sep) + Split(b, sep)
    ensures Split([c] + (a + [sep] + b), sep) == Split([c] + a, sep) + Split(b, sep)
  {
    SplitConsOther(c, a + [sep] + b, sep);
    SplitConsOther(c, a, sep);
    PrependToHead(c, Split(a, sep), Split(b, sep));
  }

  /** Prepending a character to the first piece commutes with appending
      further pieces. */
  lemma PrependToHead(c: char, front: seq<string>, back: seq<string>)
    requires |front| >= 1
    ensures [[c] + (front + back)[0]] + (front + back)[1..] == ([[c] + front[0]] + front[1..]) + back
  {
    assert (front + back)[0] == front[0];
    assert (front + back)[1..] == front[1..] + back;
  }

  /** Joining pieces that contain no separator and splitting again gives the
      pieces back. */
  lemma {:induction false} SplitJoin(parts: seq<string>, sep: char)
    requires |parts| >= 1
    requires forall i | 0 <= i < |parts| :: sep !in parts[i]
    ensures Split(Join(parts, [sep]), sep) == parts
    decreases |parts|
  {
    if |parts| == 1 {
      SplitNoSeparator(parts[0], sep);
    } else {
      SplitJoin(parts[1..], sep);
      SplitAround(parts[0], Join(parts[1..], [sep]), sep);
      SplitNoSeparator(parts[0], sep);
      assert [parts[0]] + parts[1..] == parts;
    }
  }

  /** Splitting and joining with the same separator gives the text back. */
  lemma {:induction false} JoinSplit(s: string, sep: char)
    ensures Join(Split(s, sep), [sep]) == s
    decreases |s|
  {
    if |s| > 0 {
      JoinSplit(s[1..], sep);
      var rest := Split(s[1..], sep);
      if s[0] == sep {
        assert Split(s, sep) == [""] + rest;
        assert ([""] + rest)[1..] == rest;
        assert [s[0]] + s[1..] == s;
      } else {
        var head := [[s[0]] + rest[0]] + rest[1..];
        assert Split(s, sep) == head;
        if |rest| == 1 {
          assert rest == [rest[0]];
          assert [s[0]] + s[1..] == s;
        } else {
          assert head[1..] == rest[1..];
          assert Join(rest, [sep]) == rest[0] + [sep] + Join(rest[1..], [sep]);
          assert [s[0]] + s[1..] == s;
        }
      }
    }
  }

  /** `Array.prototype.map`. */
  function Map<T, U>(f: T -> U, xs: seq<T>): (r: seq<U>)
    ensures |r| == |xs|
    ensures forall k | 0 <= k < |xs| :: r[k] == f(xs[k])
  {
    seq(|xs|, k requires 0 <= k < |xs| => f(xs[k]))
  }

  /** Mapping distributes over concatenation. */
  lemma MapAppend<T, U>(f: T -> U, a: seq<T>, b: seq<T>)
    ensures Map(f, a + b) == Map(f, a) + Map(f, b)
  {
    forall k | 0 <= k < |a + b|
      ensures Map(f, a + b)[k] == (Map(f, a) + Map(f, b))[k]
    {
      if k < |a| {
        assert (a + b)[k] == a[k];
      } else {
        assert (a + b)[k] == b[k - |a|];
      }
    }
  }

  /** `String.prototype.startsWith`. */
  predicate StartsWith(s: string, prefix: string) {
    prefix <= s
  }

  /** `s.slice(0, n)`: a negative end counts back from the end of `s`. */
  function Slice(s: string, n: int): (r: string)
    ensures r <= s
    ensures 0 <= n ==> |r| == if n < |s| then n else |s|
    ensures n < 0 ==> |r| == if |s| + n < 0 then 0 else |s| + n
  {
    if n < 0 then (if |s| + n < 0 then "" else s[..|s| + n])
    else if n < |s| then s[..n]
    else s
  }

  function DigitChar(d: nat): (c: char)
    requires d < 10
    ensures IsAsciiDigit(c)
  {
    ('0' as int + d) as char
  }

  /** Decimal rendering of a natural number, as template literals print it. */
  function NatToString(n: nat): (r: string)
    ensures |r| >= 1
    ensures forall i | 0 <= i < |r| :: IsAsciiDigit(r[i])
  {
    if n < 10 then [DigitChar(n)] else NatToString(n / 10) + [DigitChar(n % 10)]
  }

  /** Decimal rendering of an integer, with a leading `-` when negative. */
  function IntToString(n: int): (r: string)
    ensures |r| >= 1
  {
    if n < 0 then "-" + NatToString(-n) else NatToString(n)
  }
}

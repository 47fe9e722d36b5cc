/** How comments and strings are written as characters and scanned back, and exactly which ones survive that. */
module AnyText {
  lemma Joined(a: string, b: string, c: string)
    ensures a + (b + c) == a + b + c
  {
  }

  // ---------- comments ----------

  predicate Pair(s: string, i: int, a: char, b: char) {
    0 <= i < |s| - 1 && s[i] == a && s[i + 1] == b
  }

  lemma PairWithin(s: string, k: nat, i: int, a: char, b: char)
    requires Pair(s, i, a, b) && k <= i
    ensures Pair(s[k..], i - k, a, b)
  {
  }

  lemma PairPadded(before: string, s: string, after: string, i: int, a: char, b: char)
    requires Pair(s, i, a, b)
    ensures Pair(before + s + after, |before| + i, a, b)
  {
  }

  predicate Holds(s: string, a: char, b: char) {
    exists i | 0 <= i < |s| :: Pair(s, i, a, b)
  }

  /** Comments that come back as they were when written with an indentation: no null, no end mark, and no line end that
      is converted or indented. */
  predicate CommentSurvives(c: string, windows: bool, indent: nat) {
    '\0' !in c && !Holds(c, '*', '/') && if windows || indent > 0 then '\n' !in c else !Holds(c, '\r', '\n')
  }

  /** The part of a string that a C function sees. */
  function UpToNull(s: string): (t: string)
    ensures '\0' !in t && (t == s <==> '\0' !in s)
  {
    if s == "" || s[0] == '\0' then "" else [s[0]] + UpToNull(s[1..])
  }

  function LineEnd(windows: bool): string {
    if windows then "\r\n" else "\n"
  }

  /** Line ends of either kind become those of the platform. */
  function Converted(s: string, windows: bool): string {
    if s == "" then ""
    else if s[0] == '\n' then LineEnd(windows) + Converted(s[1..], windows)
    else if Pair(s, 0, '\r', '\n') then LineEnd(windows) + Converted(s[2..], windows)
    else [s[0]] + Converted(s[1..], windows)
  }

  lemma ConvertedContinues(s: string, windows: bool, before: string)
    requires s != ""
    ensures before + Converted(s, windows) ==
            if s[0] == '\n' then before + LineEnd(windows) + Converted(s[1..], windows)
            else if Pair(s, 0, '\r', '\n') then before + LineEnd(windows) + Converted(s[2..], windows)
            else before + [s[0]] + Converted(s[1..], windows)
  {
    hide LineEnd;
    var piece := if s[0] == '\n' || Pair(s, 0, '\r', '\n') then LineEnd(windows) else [s[0]];
    var rest := if s[0] != '\n' && Pair(s, 0, '\r', '\n') then s[2..] else s[1..];
    assert Converted(s, windows) == piece + Converted(rest, windows);
    hide Converted;
    Joined(before, piece, Converted(rest, windows));
  }

  method ConvertNewlines(s: string, windows: bool) returns (out: string)
    ensures out == Converted(s, windows)
  {
    hide Converted;
    hide LineEnd;
    out := "";
    var i := 0;
    while i < |s|
      invariant 0 <= i <= |s| && out + Converted(s[i..], windows) == "" + Converted(s, windows)
    {
      ghost var rest := s[i..];
      ConvertedContinues(rest, windows, out);
      assert rest[1..] == s[i + 1..];
      if s[i] == '\n' {
        out := out + LineEnd(windows);
      } else if s[i] == '\r' && i + 1 < |s| && s[i + 1] == '\n' {
        assert Pair(rest, 0, '\r', '\n') && rest[2..] == s[i + 2..];
        out := out + LineEnd(windows);
        i := i + 1;
      } else {
        assert !Pair(rest, 0, '\r', '\n');
        out := out + [s[i]];
      }
      i := i + 1;
    }
    assert s[i..] == "";
    ConvertedEnds(out, s, windows);
  }

  lemma ConvertedEnds(out: string, s: string, windows: bool)
    ensures out + Converted("", windows) == out && "" + Converted(s, windows) == Converted(s, windows)
  {
  }

  function Blanks(n: nat): string {
    seq(n, _ => ' ')
  }

  /** The text with every line but the first indented, and the first as well if it starts on a fresh line. */
  function Indented(s: string, indent: nat, atStart: bool): string {
    if s == "" then ""
    else (if atStart then Blanks(indent) else "") + [s[0]] + Indented(s[1..], indent, s[0] == '\n')
  }

  lemma IndentedContinues(s: string, indent: nat, atStart: bool, before: string)
    ensures before + Indented(s, indent, atStart) ==
            if s == "" then before
            else before + (if atStart then Blanks(indent) else "") + [s[0]] + Indented(s[1..], indent, s[0] == '\n')
  {
    hide Blanks;
    if s != "" {
      var piece := (if atStart then Blanks(indent) else "") + [s[0]];
      Joined(before, piece, Indented(s[1..], indent, s[0] == '\n'));
      Joined(before, if atStart then Blanks(indent) else "", [s[0]]);
    }
  }

  /** Writes a text one character after the other; startingNewLine is what the last one leaves for the next text. */
  method IndentAppend(s: string, indent: nat, startingNewLine: bool) returns (data: string, next: bool)
    ensures data == Indented(s, indent, startingNewLine)
    ensures next == if s == "" then startingNewLine else s[|s| - 1] == '\n'
  {
    hide Indented;
    data, next := "", startingNewLine;
    assert "" + Indented(s, indent, next) == Indented(s, indent, next);
    for i := 0 to |s|
      invariant next == if i == 0 then startingNewLine else s[i - 1] == '\n'
      invariant data + Indented(s[i..], indent, next) == Indented(s, indent, startingNewLine)
    {
      IndentedContinues(s[i..], indent, next, data);
      assert s[i..][1..] == s[i + 1..];
      data := data + (if next then Blanks(indent) else "") + [s[i]];
      next := s[i] == '\n';
    }
    assert s[|s|..] == "";
    IndentedContinues("", indent, next, data);
  }

  /** How many characters are consumed at once: a return and the line feed after it together. */
  function Step(s: string): (n: nat)
    requires s != ""
    ensures 1 <= n <= |s|
  {
    if Pair(s, 0, '\r', '\n') then 2 else 1
  }

  /** The comment that starts behind the opening mark, and what follows its end mark. */
  function BlockComment(s: string): (string, string) {
    if s == "" then ("", "")
    else if Pair(s, 0, '*', '/') then ("", s[2..])
    else
      var (comment, rest) := BlockComment(s[Step(s)..]);
      ([s[0]] + comment, rest)
  }

  lemma BlockContinues(s: string, before: string)
    ensures s == "" ==> BlockComment(s) == ("", "")
    ensures Pair(s, 0, '*', '/') ==> BlockComment(s) == ("", s[2..])
    ensures s != "" && !Pair(s, 0, '*', '/') ==>
              var (all, end) := BlockComment(s);
              var (more, rest) := BlockComment(s[Step(s)..]);
              before + all == before + [s[0]] + more && end == rest
  {
    if s != "" && !Pair(s, 0, '*', '/') {
      Joined(before, [s[0]], BlockComment(s[Step(s)..]).0);
    }
  }

  method ReadBlockComment(buffer: string, start: nat) returns (comment: string, offset: nat)
    requires start <= |buffer|
    ensures offset <= |buffer| && (comment, buffer[offset..]) == BlockComment(buffer[start..])
  {
    hide BlockComment;
    comment, offset := "", start;
    assert "" + BlockComment(buffer[start..]).0 == BlockComment(buffer[start..]).0;
    while offset < |buffer| && !(offset + 1 < |buffer| && buffer[offset] == '*' && buffer[offset + 1] == '/')
      invariant offset <= |buffer|
      invariant var (more, rest) := BlockComment(buffer[offset..]);
        (comment + more, rest) == BlockComment(buffer[start..])
    {
      var s := buffer[offset..];
      assert !Pair(s, 0, '*', '/') && s[Step(s)..] == buffer[offset + Step(s)..];
      BlockContinues(s, comment);
      comment := comment + [buffer[offset]];
      offset := offset + Step(s);
    }
    BlockContinues(buffer[offset..], comment);
    assert comment + "" == comment;
    if offset < |buffer| {
      assert Pair(buffer[offset..], 0, '*', '/') && buffer[offset..][2..] == buffer[offset + 2..];
      offset := offset + 2;
    }
  }

  /** The scan stops inside the text that was written. */
  lemma {:induction false} StopsInside(a: string, rest: string)
    ensures BlockComment(a + "*/" + rest).0 == BlockComment(a + "*/").0
  {
    var s, t := a + "*/" + rest, a + "*/";
    assert forall x, y :: Pair(s, 0, x, y) <==> Pair(t, 0, x, y);
    if a != "" && !Pair(s, 0, '*', '/') {
      var n := Step(t);
      assert n <= |a| && s[n..] == a[n..] + "*/" + rest && t[n..] == a[n..] + "*/";
      StopsInside(a[n..], rest);
    }
  }

  /** What is scanned is no longer than what was written, of the same characters, and holds no end mark. */
  lemma {:induction false} Scanned(a: string)
    ensures var c := BlockComment(a + "*/").0;
      |c| <= |a| && (forall x :: x in c ==> x in a) && !Holds(c, '*', '/') && (c != "" ==> a != "" && c[0] == a[0])
  {
    var t := a + "*/";
    if a != "" && !Pair(t, 0, '*', '/') {
      var n := Step(t);
      assert n <= |a| && t[n..] == a[n..] + "*/";
      Scanned(a[n..]);
      var c, more := BlockComment(t).0, BlockComment(t[n..]).0;
      assert c == [a[0]] + more;
      forall i
        ensures !Pair(c, i, '*', '/')
      {
        assert !Pair(more, i - 1, '*', '/');
        if i == 0 && more != "" && a[0] == '*' {
          assert n == 1 && more[0] == t[1];
        }
      }
    } else {
      assert a == "" ==> Pair(t, 0, '*', '/');
    }
  }

  predicate FeedAfterReturn(a: string, i: int) {
    0 <= i < |a| && a[i] == '\n' ==> i > 0 && a[i - 1] == '\r'
  }

  ghost predicate FeedsAfterReturns(a: string) {
    forall i :: FeedAfterReturn(a, i)
  }

  /** After a conversion to Windows line ends no line feed is scanned. */
  lemma {:induction false} NoLineFeed(a: string)
    requires FeedsAfterReturns(a)
    ensures '\n' !in BlockComment(a + "*/").0
  {
    var t := a + "*/";
    if a != "" && !Pair(t, 0, '*', '/') {
      var n := Step(t);
      assert n <= |a| && t[n..] == a[n..] + "*/" && FeedAfterReturn(a, 0);
      forall i
        ensures FeedAfterReturn(a[n..], i)
      {
        assert FeedAfterReturn(a, i + n);
      }
      NoLineFeed(a[n..]);
    }
  }

  lemma {:induction false} WindowsLineEnds(s: string)
    ensures FeedsAfterReturns(Converted(s, true))
  {
    if s != "" {
      var n := if s[0] != '\n' && Pair(s, 0, '\r', '\n') then 2 else 1;
      var first := if s[0] == '\n' || n == 2 then "\r\n" else [s[0]];
      var more := Converted(s[n..], true);
      WindowsLineEnds(s[n..]);
      var a := Converted(s, true);
      assert a == first + more;
      forall i
        ensures FeedAfterReturn(a, i)
      {
        assert FeedAfterReturn(more, i - |first|);
      }
    }
  }

  /** Conversion adds no null, and on other platforms never lengthens; a return with a line feed is shortened. */
  lemma {:induction false} ConvertedSize(s: string, windows: bool)
    ensures '\0' !in s ==> '\0' !in Converted(s, windows)
    ensures !windows ==> |Converted(s, windows)| <= |s|
    ensures !windows && Holds(s, '\r', '\n') ==> |Converted(s, windows)| < |s|
  {
    if s != "" {
      ConvertedSize(s[1..], windows);
      if |s| > 1 {
        ConvertedSize(s[2..], windows);
      }
      if Holds(s, '\r', '\n') && !Pair(s, 0, '\r', '\n') {
        var i :| Pair(s, i, '\r', '\n');
        PairWithin(s, 1, i, '\r', '\n');
      }
    }
  }

  /** Nothing that survives is converted, and all of it is scanned. */
  lemma {:induction false} PlainIsScanned(s: string, windows: bool, indent: nat, rest: string)
    requires CommentSurvives(s, windows, indent)
    ensures Converted(s, windows) == s && BlockComment(s + "*/" + rest) == (s, rest)
  {
    var t := s + "*/" + rest;
    if s == "" {
      assert Pair(t, 0, '*', '/') && t[2..] == rest;
    } else {
      assert Pair(s, 0, s[0], if |s| > 1 then s[1] else ' ') || |s| == 1;
      assert !Pair(s, 0, '*', '/') && !Pair(s, 0, '\r', '\n');
      assert CommentSurvives(s[1..], windows, indent) by {
        forall i, a, b | Pair(s[1..], i, a, b)
          ensures Pair(s, i + 1, a, b)
        {
        }
      }
      PlainIsScanned(s[1..], windows, indent, rest);
      assert t[1..] == s[1..] + "*/" + rest;
      assert !Pair(t, 0, '*', '/') && Step(t) == 1;
    }
  }

  // ---------- what indentation adds ----------

  function CountBlanks(s: string): nat {
    if s == "" then 0 else (if s[0] == ' ' then 1 else 0) + CountBlanks(s[1..])
  }

  lemma {:induction false} BlanksCounted(a: string, b: string)
    ensures CountBlanks(a + b) == CountBlanks(a) + CountBlanks(b)
  {
    if a == "" {
      assert a + b == b;
    } else {
      BlanksCounted(a[1..], b);
      assert (a + b)[1..] == a[1..] + b;
    }
  }

  lemma {:induction false} BlanksAre(n: nat)
    ensures CountBlanks(Blanks(n)) == n
  {
    if n > 0 {
      BlanksAre(n - 1);
      assert Blanks(n)[1..] == Blanks(n - 1);
    }
  }

  /** What comes first when a text is converted, and the rest of it. */
  lemma ConvertedPiece(s: string, windows: bool) returns (piece: string, rest: string)
    requires s != ""
    ensures Converted(s, windows) == piece + Converted(rest, windows) && |rest| < |s|
    ensures (piece == [s[0]] && s[0] != '\n' && rest == s[1..])
            || (piece == LineEnd(windows) && (s[0] == '\n' || s[0] == '\r'))
    ensures rest == s[1..] || (s[0] == '\r' && |s| > 1 && s[1] == '\n' && rest == s[2..] && piece == LineEnd(windows))
  {
    hide LineEnd;
    piece := if s[0] == '\n' || Pair(s, 0, '\r', '\n') then LineEnd(windows) else [s[0]];
    rest := if s[0] != '\n' && Pair(s, 0, '\r', '\n') then s[2..] else s[1..];
  }

  /** Conversion keeps blanks, line feeds and the last character if that is a blank. */
  lemma {:induction false} ConvertedKeeps(s: string, windows: bool)
    ensures var a := Converted(s, windows);
      && CountBlanks(a) == CountBlanks(s) && ('\n' in s ==> '\n' in a)
      && (s != "" && s[|s| - 1] == ' ' ==> a != "" && a[|a| - 1] == ' ')
    decreases |s|
  {
    if s != "" {
      var piece, rest := ConvertedPiece(s, windows);
      ConvertedKeeps(rest, windows);
      PieceBlanks(s, windows, piece, rest);
      hide Converted;
      hide CountBlanks;
      var a, more := Converted(s, windows), Converted(rest, windows);
      BlanksCounted(piece, more);
      assert s == s[..|s| - |rest|] + rest;
      BlanksCounted(s[..|s| - |rest|], rest);
      assert more != "" ==> a[|a| - 1] == more[|more| - 1];
    }
  }

  /** Conversion makes no end mark. */
  lemma {:induction false} ConvertedMarks(s: string, windows: bool)
    ensures var a := Converted(s, windows);
      && (s != "" ==> a != "") && (s != "" && a[0] == '/' ==> s[0] == '/')
      && (!Holds(s, '*', '/') ==> !Holds(a, '*', '/'))
    decreases |s|
  {
    if s != "" {
      var piece, rest := ConvertedPiece(s, windows);
      ConvertedMarks(rest, windows);
      assert rest == "" ==> Converted(rest, windows) == "";
      hide Converted;
      var more := Converted(rest, windows);
      if !Holds(s, '*', '/') {
        forall i
          ensures !Pair(piece + more, i, '*', '/')
        {
          NoMarkWithin(s, rest, piece, more, windows, i);
        }
      }
    }
  }

  lemma PieceBlanks(s: string, windows: bool, piece: string, rest: string)
    requires s != "" && |rest| < |s|
    requires (piece == [s[0]] && s[0] != '\n' && rest == s[1..])
             || (piece == LineEnd(windows) && (s[0] == '\n' || s[0] == '\r'))
    requires rest == s[1..] || (s[0] == '\r' && |s| > 1 && s[1] == '\n' && rest == s[2..] && piece == LineEnd(windows))
    ensures CountBlanks(piece) == CountBlanks(s[..|s| - |rest|])
    ensures '\n' in s ==> '\n' in piece || '\n' in rest
  {
    OneOrTwo(piece);
    OneOrTwo(s[..|s| - |rest|]);
  }

  lemma OneOrTwo(s: string)
    ensures |s| == 1 ==> CountBlanks(s) == if s[0] == ' ' then 1 else 0
    ensures |s| == 2 && s[0] != ' ' && s[1] != ' ' ==> CountBlanks(s) == 0
  {
    if |s| > 1 {
      assert s[1..][1..] == s[2..];
    }
  }

  lemma NoMarkWithin(s: string, rest: string, piece: string, more: string, windows: bool, i: int)
    requires s != "" && !Holds(s, '*', '/') && (rest == s[1..] || (|s| > 1 && rest == s[2..]))
    requires (piece == [s[0]] && rest == s[1..]) || piece == LineEnd(windows)
    requires (rest != "" && more != "" && more[0] == '/' ==> rest[0] == '/') && (rest == "" ==> more == "")
    requires !Holds(rest, '*', '/') ==> !Holds(more, '*', '/')
    ensures !Pair(piece + more, i, '*', '/')
  {
    assert !Holds(rest, '*', '/') by {
      forall k
        ensures !Pair(rest, k, '*', '/')
      {
        assert !Pair(s, k + 1, '*', '/') && !Pair(s, k + 2, '*', '/');
      }
    }
    assert !Pair(more, i - |piece|, '*', '/') && !Pair(s, 0, '*', '/');
  }

  /** Indentation adds blanks behind every line feed but a last one. */
  lemma {:induction false} IndentedKeeps(s: string, indent: nat, atStart: bool)
    ensures var a := Indented(s, indent, atStart);
      && CountBlanks(a) >= CountBlanks(s) + (if atStart && s != "" then indent else 0)
      && (indent > 0 && s != "" && '\n' in s[..|s| - 1] ==> CountBlanks(a) > CountBlanks(s))
  {
    if s != "" {
      var blanks, rest := if atStart then Blanks(indent) else "", s[1..];
      var more := Indented(rest, indent, s[0] == '\n');
      IndentedKeeps(rest, indent, s[0] == '\n');
      assert Indented(s, indent, atStart) == blanks + [s[0]] + more;
      hide Indented;
      BlanksAre(indent);
      BlanksCounted(blanks, [s[0]]);
      BlanksCounted(blanks + [s[0]], more);
      OneOrTwo([s[0]]);
      assert s == [s[0]] + rest;
      BlanksCounted([s[0]], rest);
      assert CountBlanks("") == 0;
      hide CountBlanks;
      if '\n' in s[..|s| - 1] && s[0] != '\n' {
        assert s[..|s| - 1] == [s[0]] + rest[..|rest| - 1];
      }
    }
  }

  /** Indentation keeps the ends of a text, and makes neither null nor end mark. */
  lemma {:induction false} IndentedMarks(s: string, indent: nat, atStart: bool)
    ensures var a := Indented(s, indent, atStart);
      && (s != "" ==> a != "" && a[0] == if atStart && indent > 0 then ' ' else s[0])
      && (s != "" ==> a[|a| - 1] == s[|s| - 1]) && ('\0' !in s ==> '\0' !in a)
      && (!Holds(s, '*', '/') ==> !Holds(a, '*', '/'))
  {
    if s != "" {
      var blanks, rest := if atStart then Blanks(indent) else "", s[1..];
      var more, a := Indented(rest, indent, s[0] == '\n'), Indented(s, indent, atStart);
      IndentedMarks(rest, indent, s[0] == '\n');
      assert a == blanks + [s[0]] + more;
      assert rest == "" ==> more == "";
      hide Indented;
      assert more != "" ==> a[|a| - 1] == more[|more| - 1];
      if !Holds(s, '*', '/') {
        NoMarkIndented(s, blanks, more);
      }
    }
  }

  lemma NoMarkIndented(s: string, blanks: string, more: string)
    requires s != "" && !Holds(s, '*', '/') && forall k :: 0 <= k < |blanks| ==> blanks[k] == ' '
    requires s[0] == '*' && more != "" ==> s[1..] != "" && more[0] == s[1]
    requires !Holds(s[1..], '*', '/') ==> !Holds(more, '*', '/')
    ensures !Holds(blanks + [s[0]] + more, '*', '/')
  {
    assert !Holds(s[1..], '*', '/') by {
      forall k
        ensures !Pair(s[1..], k, '*', '/')
      {
        assert !Pair(s, k + 1, '*', '/');
      }
    }
    forall i
      ensures !Pair(blanks + [s[0]] + more, i, '*', '/')
    {
      assert !Pair(more, i - |blanks| - 1, '*', '/') && !Pair(s, 0, '*', '/');
    }
  }

  /** Without an end mark in it, all of a text is scanned, blanks included. */
  lemma {:induction false} AllBlanksScanned(a: string)
    requires !Holds(a, '*', '/')
    ensures CountBlanks(BlockComment(a + "*/").0) == CountBlanks(a)
    decreases |a|
  {
    var t := a + "*/";
    if a == "" {
      assert Pair(t, 0, '*', '/');
    } else {
      var n := Step(t);
      assert n <= |a| && t[n..] == a[n..] + "*/";
      assert !Pair(t, 0, '*', '/') by {
        assert !Pair(a, 0, '*', '/');
      }
      assert !Holds(a[n..], '*', '/') by {
        forall k
          ensures !Pair(a[n..], k, '*', '/')
        {
          assert !Pair(a, k + n, '*', '/');
        }
      }
      AllBlanksScanned(a[n..]);
      assert a == a[..n] + a[n..];
      BlanksCounted(a[..n], a[n..]);
      BlanksCounted([a[0]], BlockComment(t[n..]).0);
      StepBlanks(a, n);
    }
  }

  lemma StepBlanks(a: string, n: nat)
    requires n == 1 <= |a| || (n == 2 && Pair(a, 0, '\r', '\n'))
    ensures CountBlanks(a[..n]) == CountBlanks([a[0]])
  {
    assert [a[0]][1..] == "";
    if n == 2 {
      assert a[..2][1..] == ['\n'] && ['\n'][1..] == "";
    } else {
      assert a[..1] == [a[0]];
    }
  }

  /** Without line feeds, or without indentation, nothing is indented. */
  lemma {:induction false} NothingIndented(s: string, indent: nat, atStart: bool)
    requires indent == 0 || (!atStart && '\n' !in s)
    ensures Indented(s, indent, atStart) == s
  {
    if s != "" {
      NothingIndented(s[1..], indent, s[0] == '\n');
      assert Blanks(0) == "";
    }
  }

  /** A character, and the blanks in front of it on a fresh line. */
  function FirstIndented(c: char, indent: nat, atStart: bool): string {
    (if atStart then Blanks(indent) else "") + [c]
  }

  lemma IndentedStep(s: string, indent: nat, atStart: bool)
    ensures Indented(s, indent, atStart) ==
            if s == "" then "" else FirstIndented(s[0], indent, atStart) + Indented(s[1..], indent, s[0] == '\n')
  {
  }

  /** Nothing is added behind the end of a line that goes on. */
  lemma {:induction false} IndentedEnd(s: string, end: string, indent: nat, atStart: bool)
    requires s != "" && s[|s| - 1] != '\n' && '\n' !in end
    ensures Indented(s + end, indent, atStart) == Indented(s, indent, atStart) + end
  {
    hide *;
    var t, next := s + end, s[0] == '\n';
    assert t[1..] == s[1..] + end;
    IndentedStep(s, indent, atStart);
    IndentedStep(t, indent, atStart);
    if |s| == 1 {
      NothingIndented(end, indent, false);
      IndentedStep(s[1..], indent, next);
      assert t[1..] == end && "" + end == end;
    } else {
      IndentedEnd(s[1..], end, indent, next);
    }
    Joined(FirstIndented(s[0], indent, atStart), Indented(s[1..], indent, next), end);
  }

  // ---------- which comments survive ----------

  /** The text of a comment behind the opening mark, up to and with the end mark. */
  function CommentText(c: string, windows: bool, indent: nat): string {
    Indented(Converted(" " + UpToNull(c) + " ", windows) + "*/", indent, false)
  }

  /** A comment is scanned back as it was written if and only if it survives. */
  lemma CommentIsScanned(c: string, windows: bool, indent: nat, rest: string)
    ensures BlockComment(CommentText(c, windows, indent) + rest) == (" " + c + " ", rest)
            <==> CommentSurvives(c, windows, indent)
  {
    var u, padded := " " + UpToNull(c) + " ", " " + c + " ";
    var x := Converted(u, windows);
    var a := Indented(x, indent, false);
    ConvertedKeeps(u, windows);
    IndentedEnd(x, "*/", indent, false);
    if CommentSurvives(c, windows, indent) {
      Padded(c, windows, indent);
      PlainIsScanned(padded, windows, indent, rest);
      NothingIndented(padded, indent, false);
    } else {
      StopsInside(a, rest);
      LostComment(c, windows, indent);
    }
  }

  /** Where a comment does not survive, what is scanned differs. */
  lemma LostComment(c: string, windows: bool, indent: nat)
    requires !CommentSurvives(c, windows, indent)
    ensures BlockComment(Indented(Converted(" " + UpToNull(c) + " ", windows), indent, false) + "*/").0 != " " + c + " "
  {
    hide Converted;
    hide Indented;
    hide BlockComment;
    hide CountBlanks;
    var u, padded := " " + UpToNull(c) + " ", " " + c + " ";
    var x := Converted(u, windows);
    var a := Indented(x, indent, false);
    var found := BlockComment(a + "*/").0;
    Scanned(a);
    ConvertedSize(u, windows);
    IndentedMarks(x, indent, false);
    if '\0' in c {
      assert '\0' in padded && '\0' !in found;
    } else if Holds(c, '*', '/') {
      var i :| Pair(c, i, '*', '/');
      PairPadded(" ", c, " ", i, '*', '/');
    } else if indent > 0 {
      IndentedDiffers(c, windows, indent);
    } else {
      NothingIndented(x, 0, false);
      if windows {
        WindowsLineEnds(u);
        NoLineFeed(x);
        assert '\n' in padded;
      } else {
        var i :| Pair(c, i, '\r', '\n');
        PairPadded(" ", c, " ", i, '\r', '\n');
        assert |found| <= |x| < |padded|;
      }
    }
  }

  /** A line feed makes for more blanks than there were. */
  lemma IndentedDiffers(c: string, windows: bool, indent: nat)
    requires '\0' !in c && !Holds(c, '*', '/') && '\n' in c && indent > 0
    ensures CountBlanks(BlockComment(Indented(Converted(" " + UpToNull(c) + " ", windows), indent, false) + "*/").0)
          > CountBlanks(" " + c + " ")
  {
    var u := " " + c + " ";
    assert UpToNull(c) == c;
    var x := Converted(u, windows);
    assert !Holds(u, '*', '/') by {
      forall i
        ensures !Pair(u, i, '*', '/')
      {
        assert !Pair(c, i - 1, '*', '/');
      }
    }
    assert '\n' in u && u[|u| - 1] == ' ';
    ConvertedKeeps(u, windows);
    ConvertedMarks(u, windows);
    assert '\n' in x[..|x| - 1] by {
      var k :| 0 <= k < |x| && x[k] == '\n';
      assert x[..|x| - 1][k] == '\n';
    }
    IndentedKeeps(x, indent, false);
    IndentedMarks(x, indent, false);
    AllBlanksScanned(Indented(x, indent, false));
  }

  lemma Padded(c: string, windows: bool, indent: nat)
    requires CommentSurvives(c, windows, indent)
    ensures CommentSurvives(" " + c + " ", windows, indent)
  {
    var s := " " + c + " ";
    forall i, a, b | Pair(s, i, a, b)
      ensures a == ' ' || b == ' ' || Pair(c, i - 1, a, b)
    {
    }
    assert '\0' !in s && (windows || indent > 0 ==> '\n' !in s);
  }

  // ---------- comments that need not survive ----------

  /** What is found of a comment between its marks. */
  function FoundComment(c: string, windows: bool, indent: nat): string {
    BlockComment(CommentText(c, windows, indent)).0
  }

  /** What is written of a comment holds no end mark. */
  predicate OneComment(c: string) {
    !Holds(UpToNull(c), '*', '/')
  }

  /** Without an end mark in it, a text is scanned up to the one behind it. */
  lemma {:induction false} ScannedToEnd(a: string, rest: string)
    requires !Holds(a, '*', '/')
    ensures BlockComment(a + "*/" + rest).1 == rest
    decreases |a|
  {
    var t := a + "*/" + rest;
    if a == "" {
      assert Pair(t, 0, '*', '/') && t[2..] == rest;
    } else {
      var n := Step(a + "*/");
      assert n <= |a| && t[n..] == a[n..] + "*/" + rest && Step(t) == n;
      NoMarkBehind(a, n);
      assert !Pair(t, 0, '*', '/') by {
        assert !Pair(a, 0, '*', '/');
      }
      ScannedToEnd(a[n..], rest);
    }
  }

  lemma NoMarkBehind(a: string, n: nat)
    requires n <= |a| && !Holds(a, '*', '/')
    ensures !Holds(a[n..], '*', '/')
  {
    forall k
      ensures !Pair(a[n..], k, '*', '/')
    {
      assert !Pair(a, k + n, '*', '/');
    }
  }

  /** Such a comment is scanned as one, whatever follows, and holds no null. */
  lemma OneCommentIsScanned(c: string, windows: bool, indent: nat, rest: string)
    requires OneComment(c)
    ensures BlockComment(CommentText(c, windows, indent) + rest) == (FoundComment(c, windows, indent), rest)
    ensures '\0' !in FoundComment(c, windows, indent)
  {
    var u := " " + UpToNull(c) + " ";
    NoMarkPadded(UpToNull(c));
    var a := WrittenComment(u, windows, indent);
    ScannedToEnd(a, rest);
    StopsInside(a, rest);
    Scanned(a);
    ConvertedSize(u, windows);
    IndentedMarks(Converted(u, windows), indent, false);
  }

  lemma NoMarkPadded(c: string)
    requires !Holds(c, '*', '/')
    ensures !Holds(" " + c + " ", '*', '/')
  {
    forall i
      ensures !Pair(" " + c + " ", i, '*', '/')
    {
      assert !Pair(c, i - 1, '*', '/');
    }
  }

  /** What is written between the marks for a padded comment. */
  lemma WrittenComment(u: string, windows: bool, indent: nat) returns (a: string)
    requires u != "" && u[|u| - 1] == ' ' && !Holds(u, '*', '/')
    ensures a == Indented(Converted(u, windows), indent, false) && !Holds(a, '*', '/')
    ensures Indented(Converted(u, windows) + "*/", indent, false) == a + "*/"
  {
    var x := Converted(u, windows);
    a := Indented(x, indent, false);
    ConvertedKeeps(u, windows);
    ConvertedMarks(u, windows);
    IndentedMarks(x, indent, false);
    IndentedEnd(x, "*/", indent, false);
  }

  lemma {:induction false} ConvertedLast(s: string, z: char, windows: bool)
    requires z != '\n'
    ensures Converted(s + [z], windows) == Converted(s, windows) + [z]
    decreases |s|
  {
    var t := s + [z];
    if s == "" {
      assert t[1..] == "" && t == [z];
    } else {
      var n := if s[0] != '\n' && Pair(s, 0, '\r', '\n') then 2 else 1;
      assert Pair(t, 0, '\r', '\n') <==> Pair(s, 0, '\r', '\n');
      assert t[n..] == s[n..] + [z];
      ConvertedLast(s[n..], z, windows);
      var piece := if s[0] == '\n' || n == 2 then LineEnd(windows) else [s[0]];
      hide LineEnd;
      assert Converted(s, windows) == piece + Converted(s[n..], windows);
      assert Converted(t, windows) == piece + Converted(t[n..], windows);
      hide Converted;
      Joined(piece, Converted(s[n..], windows), [z]);
    }
  }

  lemma {:induction false} ScannedLast(a: string, z: char)
    requires !Holds(a + [z], '*', '/') && z != '\n'
    ensures BlockComment(a + [z] + "*/").0 == BlockComment(a + "*/").0 + [z]
    decreases |a|
  {
    var s, t := a + [z] + "*/", a + "*/";
    var whole := a + [z];
    if a == "" {
      assert Pair(t, 0, '*', '/') && s[1..] == t && !Pair(s, 0, '*', '/') && Step(s) == 1;
    } else {
      var n := Step(t);
      assert n <= |a| && t[n..] == a[n..] + "*/" && s[n..] == a[n..] + [z] + "*/" && Step(s) == n;
      assert whole[n..] == a[n..] + [z];
      NoMarkBehind(whole, n);
      assert !Pair(whole, 0, '*', '/');
      assert !Pair(s, 0, '*', '/') && !Pair(t, 0, '*', '/');
      ScannedLast(a[n..], z);
    }
  }

  /** What is found for a text between the marks. */
  function Refound(s: string, windows: bool, indent: nat): string {
    BlockComment(Indented(Converted(s, windows), indent, false) + "*/").0
  }

  lemma RefoundFirst(s: string, windows: bool, indent: nat)
    ensures Refound(" " + s, windows, indent) == " " + Refound(s, windows, indent)
  {
    var t := " " + s;
    assert t[1..] == s && !Pair(t, 0, '\r', '\n');
    var x := Converted(s, windows);
    assert Converted(t, windows) == " " + x && (" " + x)[1..] == x;
    assert Indented(" " + x, indent, false) == " " + Indented(x, indent, false);
    var b := Indented(x, indent, false) + "*/";
    assert " " + Indented(x, indent, false) + "*/" == " " + b && (" " + b)[1..] == b && Step(" " + b) == 1;
  }

  lemma RefoundLast(s: string, z: char, windows: bool, indent: nat)
    requires s != "" && s[|s| - 1] != '\n' && z != '\n' && !Holds(s + [z], '*', '/')
    ensures Refound(s + [z], windows, indent) == Refound(s, windows, indent) + [z]
  {
    var n := |s| - 1;
    var x, y := Converted(s, windows), Converted(s + [z], windows);
    assert s[..n] + [s[n]] == s;
    ConvertedLast(s[..n], s[n], windows);
    ConvertedLast(s, z, windows);
    IndentedEnd(x, [z], indent, false);
    ConvertedMarks(s + [z], windows);
    IndentedMarks(y, indent, false);
    ScannedLast(Indented(x, indent, false), z);
  }

  /** A text that starts and ends with no line end keeps its first character and its last. */
  lemma RefoundEnds(s: string, windows: bool, indent: nat)
    requires s != "" && !Holds(s, '*', '/') && s[0] != '\n' && s[0] != '\r' && s[|s| - 1] != '\n'
    ensures var r := Refound(s, windows, indent); r != "" && r[0] == s[0] && r[|r| - 1] == s[|s| - 1]
  {
    var n, r := |s| - 1, Refound(s, windows, indent);
    var x := Converted(s, windows);
    assert s[..n] + [s[n]] == s;
    ConvertedLast(s[..n], s[n], windows);
    ConvertedMarks(s, windows);
    IndentedMarks(x, indent, false);
    var a := Indented(x, indent, false);
    assert x[0] == s[0] && a[0] == s[0] && a[|a| - 1] == s[n];
    assert a[..|a| - 1] + [s[n]] == a;
    ScannedLast(a[..|a| - 1], s[n]);
    Scanned(a);
  }

  /** A comment without line ends at its ends is found padded, and with the same ends. */
  lemma FoundPadded(c: string, windows: bool, indent: nat) returns (r: string)
    requires c != "" && '\0' !in c && OneComment(c)
    requires c[0] != '\n' && c[0] != '\r' && c[|c| - 1] != '\n'
    ensures FoundComment(c, windows, indent) == " " + r + " "
    ensures r != "" && r[0] == c[0] && r[|r| - 1] == c[|c| - 1]
  {
    r := Refound(c, windows, indent);
    var u := " " + c + " ";
    assert UpToNull(c) == c;
    NoMarkPadded(c);
    var a := WrittenComment(u, windows, indent);
    assert FoundComment(c, windows, indent) == Refound(u, windows, indent);
    RefoundFirst(c, windows, indent);
    RefoundLast(" " + c, ' ', windows, indent);
    RefoundEnds(c, windows, indent);
  }

  /** A comment of two lines comes back as it was outside of tables and arrays, and within one with its second line
      indented. */
  lemma TwoLines(rest: string)
    ensures BlockComment(CommentText("a\nb", false, 0) + rest) == (" a\nb ", rest)
    ensures BlockComment(CommentText("a\nb", false, 4) + rest) == (" a\n    b ", rest)
  {
    hide Converted;
    hide Indented;
    hide BlockComment;
    hide CommentSurvives;
    hide UpToNull;
    var c, u := "a\nb", " a\nb ";
    BothSurvive();
    assert " " + c + " " == u;
    CommentIsScanned(c, false, 0, rest);
    Padded(c, false, 0);
    PlainIsScanned(u, false, 0, rest);
    IndentedEnd(u, "*/", 4, false);
    TwoLinesIndented();
    PlainIsScanned(" a\n    b ", false, 0, rest);
  }

  lemma SecondLineFound()
    ensures FoundComment("a\nb", false, 4) == " a\n    b "
  {
    hide BlockComment;
    hide CommentText;
    TwoLines("");
    assert CommentText("a\nb", false, 4) + "" == CommentText("a\nb", false, 4);
  }

  lemma TwoLinesIndented()
    ensures Indented(" a\nb ", 4, false) == " a\n    b "
  {
    hide Indented;
    IndentedStep(" a\nb ", 4, false);
    IndentedStep("a\nb ", 4, false);
    IndentedStep("\nb ", 4, false);
    IndentedStep("b ", 4, true);
    NothingIndented(" ", 4, false);
    assert " a\nb "[1..] == "a\nb " && "a\nb "[1..] == "\nb " && "\nb "[1..] == "b " && "b "[1..] == " ";
    assert Blanks(4) == "    ";
    assert FirstIndented('b', 4, true) == "    b";
  }

  lemma BothSurvive()
    ensures CommentSurvives("a\nb", false, 0) && CommentSurvives(" a\n    b ", false, 0) && UpToNull("a\nb") == "a\nb"
  {
    assert "a\nb"[1] == '\n';
  }

  // ---------- strings ----------

  function EscapedChar(c: char): string {
    if c == '\0' then "\\0"
    else if c == '\r' then "\\r"
    else if c == '\n' then "\\n"
    else if c == '\t' then "\\t"
    else if c == '\\' then "\\\\"
    else [c]
  }

  function Escaped(s: string): string {
    if s == "" then "" else EscapedChar(s[0]) + Escaped(s[1..])
  }

  lemma EscapedContinues(s: string, before: string)
    ensures before + Escaped(s) == if s == "" then before else before + EscapedChar(s[0]) + Escaped(s[1..])
  {
    hide EscapedChar;
    if s != "" {
      Joined(before, EscapedChar(s[0]), Escaped(s[1..]));
    }
  }

  method Escape(s: string) returns (result: string)
    ensures result == Escaped(s)
  {
    hide Escaped;
    hide EscapedChar;
    result := "";
    assert "" + Escaped(s) == Escaped(s);
    for i := 0 to |s|
      invariant result + Escaped(s[i..]) == Escaped(s)
    {
      EscapedContinues(s[i..], result);
      assert s[i..][1..] == s[i + 1..];
      result := result + EscapedChar(s[i]);
    }
    assert s[|s|..] == "";
    EscapedContinues("", result);
  }

  /** What an escape sequence stands for; an unknown one is skipped. */
  function Unescaped(e: char): string {
    if e == 'r' then "\r"
    else if e == 'n' then "\n"
    else if e == 't' then "\t"
    else if e == '0' then "\0"
    else if e == '\\' || e == '"' || e == '\'' then [e]
    else ""
  }

  /** The string that starts behind the opening quotation mark, and what follows the closing one. */
  function QuotedString(s: string): (string, string) {
    if s == "" then ("", "")
    else
      var next := s[Step(s)..];
      if s[0] == '"' then ("", next)
      else if s[0] == '\\' then
        if next == "" then ("", "")
        else
          var (more, rest) := QuotedString(next[Step(next)..]);
          (Unescaped(next[0]) + more, rest)
      else
        var (more, rest) := QuotedString(next);
        ([if Step(s) == 2 then '\n' else s[0]] + more, rest)
  }

  /** The characters that come next within a string, escaped or not, and what they stand for. */
  function PieceLength(s: string): (n: nat)
    requires s != "" && (s[0] == '\\' ==> |s| > 1)
    ensures 0 < n <= |s|
  {
    if s[0] == '\\' then 1 + Step(s[1..]) else Step(s)
  }

  function Piece(s: string): string
    requires s != "" && (s[0] == '\\' ==> |s| > 1)
  {
    if s[0] == '\\' then Unescaped(s[1]) else [if Step(s) == 2 then '\n' else s[0]]
  }

  lemma QuotedEnds(s: string)
    ensures s == "" || s == "\\" ==> QuotedString(s) == ("", "")
    ensures s != "" && s[0] == '"' ==> QuotedString(s) == ("", s[1..])
  {
  }

  lemma QuotedContinues(s: string, before: string)
    requires s != "" && s[0] != '"' && (s[0] == '\\' ==> |s| > 1)
    ensures var (all, end) := QuotedString(s);
      var (more, rest) := QuotedString(s[PieceLength(s)..]);
      before + all == before + Piece(s) + more && end == rest
  {
    QuotedStep(s);
    hide *;
    Joined(before, Piece(s), QuotedString(s[PieceLength(s)..]).0);
  }

  lemma QuotedStep(s: string)
    requires s != "" && s[0] != '"' && (s[0] == '\\' ==> |s| > 1)
    ensures var (more, rest) := QuotedString(s[PieceLength(s)..]);
      QuotedString(s) == (Piece(s) + more, rest)
  {
    if s[0] == '\\' {
      assert !Pair(s, 0, '\r', '\n');
      var next := s[1..];
      assert next[Step(next)..] == s[PieceLength(s)..];
      hide Unescaped;
    }
  }

  method ParseQuotedString(buffer: string, start: nat) returns (text: string, offset: nat)
    requires start <= |buffer|
    ensures offset <= |buffer| && (text, buffer[offset..]) == QuotedString(buffer[start..])
  {
    hide QuotedString;
    text, offset := "", start;
    assert "" + QuotedString(buffer[start..]).0 == QuotedString(buffer[start..]).0;
    while offset < |buffer|
      invariant offset <= |buffer|
      invariant var (more, rest) := QuotedString(buffer[offset..]);
        (text + more, rest) == QuotedString(buffer[start..])
    {
      var s := buffer[offset..];
      assert text + "" == text;
      QuotedEnds(s);
      if s[0] == '"' {
        assert s[1..] == buffer[offset + 1..];
        offset := offset + 1;
        return;
      }
      if s[0] == '\\' && |s| == 1 {
        assert s[1..] == "" == buffer[offset + 1..];
        offset := offset + 1;
        return;
      }
      QuotedContinues(s, text);
      assert s[PieceLength(s)..] == buffer[offset + PieceLength(s)..];
      text := text + Piece(s);
      offset := offset + PieceLength(s);
    }
    QuotedEnds("");
    assert buffer[offset..] == "" && text + "" == text;
  }

  function UpToQuote(s: string): (t: string)
    ensures t == s <==> '"' !in s
  {
    if s == "" || s[0] == '"' then "" else [s[0]] + UpToQuote(s[1..])
  }

  /** Strings that come back as they were: the writer does not escape quotation marks. */
  predicate StringSurvives(s: string) {
    '"' !in s
  }

  lemma EscapedCharIsRead(c: char, more: string)
    requires c != '"'
    ensures QuotedString(EscapedChar(c) + more) == ([c] + QuotedString(more).0, QuotedString(more).1)
  {
    var e := EscapedChar(c);
    var t := e + more;
    assert !Pair(t, 0, '\r', '\n');
    if |e| == 2 {
      var next := t[1..];
      assert next == [e[1]] + more && !Pair(next, 0, '\r', '\n') && next[1..] == more;
      assert Unescaped(e[1]) == [c];
    } else {
      assert t[1..] == more;
    }
  }

  lemma {:induction false} EscapedIsRead(s: string, rest: string)
    ensures QuotedString(Escaped(s) + "\"" + rest).0 == UpToQuote(s)
    ensures '"' !in s ==> QuotedString(Escaped(s) + "\"" + rest).1 == rest
  {
    var t := Escaped(s) + "\"" + rest;
    if s == "" {
      assert t == "\"" + rest && t[1..] == rest;
    } else {
      var more := Escaped(s[1..]) + "\"" + rest;
      assert t == EscapedChar(s[0]) + more;
      if s[0] != '"' {
        hide QuotedString;
        EscapedCharIsRead(s[0], more);
        EscapedIsRead(s[1..], rest);
      }
    }
  }

  /** A string is read back as it was written if and only if it holds no quotation mark. */
  lemma StringIsScanned(s: string, rest: string)
    ensures QuotedString(Escaped(s) + "\"" + rest) == (s, rest) <==> StringSurvives(s)
  {
    EscapedIsRead(s, rest);
  }
}

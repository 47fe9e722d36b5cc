/** One table as it may be written by hand and what is read of it, and one as it is printed. */
module AnyExamples {
  import opened Results
  import opened AnyForms
  import opened AnyParser
  import opened AnyPrinter
  import opened AnyRoundTrip
  import opened AnyStreams
  import opened AnyTables
  import opened AnyText
  import opened AnyTokens

  // ---------- reading ----------

  /** A table called pose. It sets b, then "a c", then ab, which has comments before it, behind the key and before the
      value, and then b again. */
  const WRITTEN: seq<Token> := [
    SymbolToken("pose"), SymbolToken("{"),
    SymbolToken("b"), SymbolToken("="), NumberToken("1", 1.0), SymbolToken(";"),
    StringToken("a c"), SymbolToken("="), SymbolToken("["), NumberToken("2", 2.0), SymbolToken(","),
    SymbolToken("None"), SymbolToken(","), SymbolToken("]"), SymbolToken(","),
    CommentToken(" x "), SymbolToken("ab"), CommentToken(" k "), SymbolToken("="), CommentToken(" y "),
    SymbolToken("("), BooleanToken("true", true), SymbolToken(";"), SymbolToken(")"), SymbolToken(","),
    SymbolToken("b"), SymbolToken("="), StringToken("z"), SymbolToken("}")]

  const PAIR := Array("", "", [Number("", 2.0), None("")])
  const MARKED := Array("x\ny", "", [Boolean("", true)])
  const ENTRIES := [Entry("a c", PAIR), Entry("ab", MARKED), Entry("b", String("", "z"))]

  /** A value read behind a comment has the comment without the blanks around it. */
  lemma CommentedIsRead(c: string, tokens: seq<Token>, v: Any)
    requires Reads(tokens, v) && v.comment == "" && TrimWhitespace(c) != ""
    requires tokens != [] && !tokens[0].CommentToken? && !tokens[0].NewlineToken? && !tokens[0].EndToken?
    ensures Reads([CommentToken(c)] + tokens, v.(comment := TrimWhitespace(c)))
  {
    hide Parse;
    hide Start;
    hide TrimWhitespace;
    forall more
      ensures Parse(Start([CommentToken(c)] + tokens + more)) == Ok((v.(comment := TrimWhitespace(c)), Start(more)))
    {
      CommentedIsParsed(c, tokens, v, more);
    }
  }

  lemma CommentedIsParsed(c: string, tokens: seq<Token>, v: Any, more: seq<Token>)
    requires Parse(Start(tokens + more)) == Ok((v, Start(more))) && v.comment == "" && TrimWhitespace(c) != ""
    requires tokens != [] && !tokens[0].CommentToken? && !tokens[0].NewlineToken? && !tokens[0].EndToken?
    ensures Parse(Start([CommentToken(c)] + tokens + more)) == Ok((v.(comment := TrimWhitespace(c)), Start(more)))
  {
    StartOf(tokens, more);
    ReadNext(CommentToken(c), tokens + more);
    hide *;
    CommentIsRead(c, tokens + more);
    ParsePlain(Start(tokens + more));
    ParseCommented(Start([CommentToken(c)] + (tokens + more)), TrimWhitespace(c), Start(tokens + more));
    CommentedOk(v, Start(more), TrimWhitespace(c));
    assert [CommentToken(c)] + tokens + more == [CommentToken(c)] + (tokens + more);
  }

  lemma CommentedOk(v: Any, next: Input, c: string)
    requires c != ""
    ensures Commented(Ok((v, next)), c) == Ok((v.(comment := c), next))
  {
  }

  const TWO := Element("", [NumberToken("2", 2.0)], Number("", 2.0), [], [SymbolToken(",")])
  const NOTHING := Element("", [SymbolToken("None")], None(""), [], [SymbolToken(",")])
  const TRUTH := Element("", [BooleanToken("true", true)], Boolean("", true), [], [SymbolToken(";")])

  /** The values of the table as they are set, in the order of the text. */
  const ONE_SET := Setting("b", false, [],
                           Element("", [NumberToken("1", 1.0)], Number("", 1.0), [], [SymbolToken(";")]))
  const PAIR_SET := Setting("a c", true, [],
    Element("", ArrayForm([], '[', [TWO, NOTHING], "", ']'), PAIR, [], [SymbolToken(",")]))
  const MARKED_SET := Setting("ab", false, [CommentToken(" k ")],
    Element(" x ", [CommentToken(" y ")] + ArrayForm([], '(', [TRUTH], "", ')'), MARKED.(comment := "y"), [],
            [SymbolToken(",")]))
  const TEXT_SET := Setting("b", false, [], Element("", [StringToken("z")], String("", "z"), [], []))

  const SETTINGS := [ONE_SET, PAIR_SET, MARKED_SET, TEXT_SET]

  lemma TrimmedWord(c: string)
    requires c == "x" || c == "y"
    ensures TrimWhitespace(" " + c + " ") == c
  {
    TrimmedExactly(c);
    hide TrimWhitespace;
    TrimPadded(c);
  }

  lemma TrimmedTwoLines()
    ensures TrimWhitespace("x\ny") == "x\ny" && TrimWhitespace("") == ""
  {
    TrimmedExactly("x\ny");
    TrimmedExactly("");
    hide TrimWhitespace;
  }

  lemma NoneInCapitals()
    ensures ToUpper("None") == "NONE"
  {
  }

  lemma TrimmedWords()
    ensures TrimWhitespace(" x ") == "x" && TrimWhitespace(" y ") == "y" && TrimWhitespace("x\ny") == "x\ny"
    ensures TrimWhitespace("") == "" && ToUpper("None") == "NONE"
  {
    hide *;
    TrimmedWord("x");
    TrimmedWord("y");
    TrimmedTwoLines();
    NoneInCapitals();
    assert " " + "x" + " " == " x " && " " + "y" + " " == " y ";
  }

  lemma NoName()
    ensures NamePieces([]) && Symbols([]) == [] && Concat([]) == ""
  {
  }

  lemma UnmarkedElement(e: Element)
    requires e.lead == ""
    ensures Led(e) == e.value
  {
    TrimmedWords();
    hide TrimWhitespace;
  }

  lemma PairIsRead()
    ensures Reads(ArrayForm([], '[', [TWO, NOTHING], "", ']'), PAIR)
  {
    NoName();
    NumberIsRead("2", 2.0);
    TrimmedWords();
    NoneIsRead("None");
    UnmarkedElement(TWO);
    UnmarkedElement(NOTHING);
    hide Reads;
    hide Led;
    hide ToUpper;
    hide TrimWhitespace;
    var elements := [TWO, NOTHING];
    assert elements[0] == TWO && elements[1] == NOTHING;
    ArrayIsRead([], '[', elements, "");
    assert Values(elements) == [Number("", 2.0), None("")];
  }

  lemma MarkedIsRead()
    ensures Reads([CommentToken(" y ")] + ArrayForm([], '(', [TRUTH], "", ')'), MARKED.(comment := "y"))
  {
    NoName();
    BooleanIsRead("true", true);
    TrimmedWords();
    UnmarkedElement(TRUTH);
    hide Reads;
    hide Led;
    hide ToUpper;
    hide TrimWhitespace;
    var elements := [TRUTH];
    assert elements[0] == TRUTH;
    ArrayIsRead([], '(', elements, "");
    assert Values(elements) == [Boolean("", true)];
    assert ArrayForm([], '(', elements, "", ')')[0] == SymbolToken("(");
    CommentedIsRead(" y ", ArrayForm([], '(', elements, "", ')'), Array("", "", [Boolean("", true)]));
  }

  lemma SettingsAreProper()
    ensures ProperSettings(SETTINGS) && SettingsEnded(SETTINGS, "") && NamePieces(["pose"])
  {
    NumberIsRead("1", 1.0);
    StringIsRead("z");
    PairIsRead();
    MarkedIsRead();
    hide Reads;
    hide ArrayForm;
    assert ToUpper("pose")[0] == 'P';
  }

  lemma PairIsWritten()
    ensures OneSetting(PAIR_SET) ==
              [StringToken("a c"), SymbolToken("="), SymbolToken("["), NumberToken("2", 2.0), SymbolToken(","),
               SymbolToken("None"), SymbolToken(","), SymbolToken("]"), SymbolToken(",")]
  {
    var two := [TWO, NOTHING];
    assert two[1..] == [NOTHING] && [NOTHING][1..] == [];
    assert OneElement(TWO) == [NumberToken("2", 2.0), SymbolToken(",")];
    assert OneElement(NOTHING) == [SymbolToken("None"), SymbolToken(",")];
    assert AllElements([NOTHING]) == OneElement(NOTHING);
    NoName();
    hide OneElement;
    assert AllElements(two) == OneElement(TWO) + OneElement(NOTHING);
    hide AllElements;
  }

  lemma MarkedIsWritten()
    ensures OneSetting(MARKED_SET) ==
              [CommentToken(" x "), SymbolToken("ab"), CommentToken(" k "), SymbolToken("="), CommentToken(" y "),
               SymbolToken("("), BooleanToken("true", true), SymbolToken(";"), SymbolToken(")"), SymbolToken(",")]
  {
    assert [TRUTH][1..] == [];
    assert OneElement(TRUTH) == [BooleanToken("true", true), SymbolToken(";")];
    NoName();
    hide OneElement;
    assert AllElements([TRUTH]) == OneElement(TRUTH);
    hide AllElements;
  }

  lemma BothAreWritten()
    ensures OneSetting(ONE_SET) == [SymbolToken("b"), SymbolToken("="), NumberToken("1", 1.0), SymbolToken(";")]
    ensures OneSetting(TEXT_SET) == [SymbolToken("b"), SymbolToken("="), StringToken("z")]
  {
  }

  lemma SettingsInOrder(a: Setting, b: Setting, c: Setting, d: Setting)
    ensures AllSettings([a, b, c, d]) == OneSetting(a) + OneSetting(b) + OneSetting(c) + OneSetting(d)
  {
    hide OneSetting;
    assert [a, b, c, d][1..] == [b, c, d] && [b, c, d][1..] == [c, d] && [c, d][1..] == [d] && [d][1..] == [];
    assert AllSettings([d]) == OneSetting(d);
    assert AllSettings([c, d]) == OneSetting(c) + OneSetting(d);
    assert AllSettings([b, c, d]) == OneSetting(b) + (OneSetting(c) + OneSetting(d));
  }

  lemma NamedForm(settings: seq<Setting>)
    ensures TableForm(["pose"], settings, "")
         == [SymbolToken("pose"), SymbolToken("{")] + AllSettings(settings) + [SymbolToken("}")]
  {
    hide AllSettings;
    assert Symbols(["pose"]) == [SymbolToken("pose")];
  }

  lemma SettingsAreWritten()
    ensures TableForm(["pose"], SETTINGS, "") == WRITTEN
  {
    PairIsWritten();
    MarkedIsWritten();
    BothAreWritten();
    SettingsInOrder(ONE_SET, PAIR_SET, MARKED_SET, TEXT_SET);
    NamedForm(SETTINGS);
    hide OneSetting;
    hide AllSettings;
    hide TableForm;
    hide ONE_SET;
    hide PAIR_SET;
    hide MARKED_SET;
    hide TEXT_SET;
  }

  lemma LastValues()
    ensures HoldsLast(ENTRIES, SETTINGS)
  {
    TrimmedWords();
    hide TrimWhitespace;
    var entries := ENTRIES;
    assert "x" + "\n" + "y" == "x\ny" && Led(MARKED_SET.element) == MARKED;
    UnmarkedElement(PAIR_SET.element);
    UnmarkedElement(TEXT_SET.element);
    assert Less("a c", "ab") && Less("ab", "b") by {
      assert "a c"[1..] == " c" && "ab"[1..] == "b";
    }
    assert Ascending(entries);
    assert LastSets(SETTINGS, 1, entries[0]) && LastSets(SETTINGS, 2, entries[1]) && LastSets(SETTINGS, 3, entries[2]);
    forall e
      ensures e in entries <==> exists i :: 0 <= i < |SETTINGS| && LastSets(SETTINGS, i, e)
    {
      if i :| 0 <= i < |SETTINGS| && LastSets(SETTINGS, i, e) {
        assert i != 0 by {
          assert SETTINGS[3].key == "b";
        }
        assert e == entries[i - 1];
      }
    }
  }

  /** The last value of b stays, the key in quotes comes first, and both comments before the value of ab are kept. */
  method ReadTable() returns (v: Parsed<Any>)
    ensures v == Ok(Table("", "pose", ENTRIES))
  {
    hide *;
    SettingsAreProper();
    SettingsAreWritten();
    ghost var entries := TableIsRead(["pose"], SETTINGS, "");
    LastValues();
    TableIsDetermined(entries, ENTRIES, SETTINGS);
    ReadsWhole(WRITTEN, Table("", Concat(["pose"]), entries));
    PoseIs();
    var input := new TextInput(WRITTEN);
    v := input.Deserialize();
  }

  const NOTES: seq<Token> := [CommentToken(" x "), NewlineToken("\n"), CommentToken(" y "), SymbolToken("z")]

  /** Two comments with a line end between them, token by token. */
  lemma NotesAreJoined()
    ensures Comments(Start(NOTES), "") == (TrimWhitespace("x\n\n\ny\n\n"), Input(SymbolToken("z"), []))
  {
    TrimmedWords();
    hide TrimWhitespace;
    var first, line := Input(NOTES[0], NOTES[1..]), Input(NOTES[1], NOTES[2..]);
    var second, last := Input(NOTES[2], NOTES[3..]), Input(NOTES[3], []);
    assert NOTES[1..][1..] == NOTES[2..] && NOTES[2..][1..] == NOTES[3..] && NOTES[3..][1..] == [];
    assert Start(NOTES) == first && first.Read() == line && line.Read() == second && second.Read() == last;
    assert CommentLines(line, "x\n" + "\n") == ("x\n" + "\n" + "\n", second);
    assert "" + "x" + "\n" == "x\n" && "x\n" + "\n" + "\n" == "x\n\n\n" && "x\n\n\n" + "y" + "\n" == "x\n\n\ny\n";
    assert "x\n\n\ny\n" + "\n" == "x\n\n\ny\n\n";
    assert CommentLines(first, "x\n") == ("x\n\n\n", second);
    assert CommentLines(second, "x\n\n\ny\n") == ("x\n\n\ny\n\n", last);
    hide CommentLines;
    assert Comments(last, "x\n\n\ny\n\n") == (TrimWhitespace("x\n\n\ny\n\n"), last);
    assert Comments(second, "x\n\n\n") == Comments(last, "x\n\n\ny\n\n");
  }

  lemma NotesAreTrimmed()
    ensures TrimWhitespace("x\n\n\ny\n\n") == "x\n\n\ny"
  {
    TrimmedExactly("x\n\n\ny");
    hide TrimWhitespace;
    TrimPadded("x\n\n\ny");
    assert "x\n\n\ny" + "\n" + "\n" == "x\n\n\ny\n\n";
  }

  /** The line end and two that every comment adds stand between the comments. */
  method ReadNotes() returns (comment: string, next: Token)
    ensures comment == "x\n\n\ny" && next == SymbolToken("z")
  {
    hide Comments;
    hide Start;
    hide TrimWhitespace;
    NotesAreJoined();
    NotesAreTrimmed();
    var input := new TextInput(NOTES);
    comment := input.DeserializeComment();
    next := input.token;
  }

  lemma ReadsWhole(tokens: seq<Token>, v: Any)
    requires Reads(tokens, v)
    ensures Parse(Start(tokens)) == Ok((v, Start([])))
  {
    hide Parse;
    hide Start;
    assert tokens + [] == tokens;
  }

  lemma PoseIs()
    ensures Concat(["pose"]) == "pose"
  {
    assert ["pose"][1..] == [];
  }

  // ---------- printing ----------

  lemma PairIsPrinted(text: Syntax)
    ensures Tokens(PAIR, text, 1) ==
              [SymbolToken("("), NumberToken(text.digits(2.0),
                                             2.0), SymbolToken(","), SymbolToken("NONE"), SymbolToken(")")]
  {
    var elements := PAIR.elements;
    assert elements[1..] == [None("")] && elements[1..][1..] == [];
    assert Tokens(Number("", 2.0), text, 2) == [NumberToken(text.digits(2.0), 2.0)];
    assert Tokens(None(""), text, 2) == [SymbolToken("NONE")];
    hide Tokens;
    assert ElementTokens([None("")], text, 2) == [SymbolToken("NONE")];
  }

  lemma MarkedIsPrinted(text: Syntax)
    ensures Tokens(MARKED, text, 1) ==
              [CommentToken(FoundComment("x\ny", text.windows, 4)), SymbolToken("("), BooleanToken("true", true),
               SymbolToken(")")]
  {
    hide FoundComment;
    var elements := MARKED.elements;
    assert elements[1..] == [];
    assert Tokens(Boolean("", true), text, 2) == [BooleanToken("true", true)];
    hide Tokens;
    assert ElementTokens(elements, text, 2) == [BooleanToken("true", true)];
  }

  lemma EntriesArePrinted(text: Syntax)
    ensures EntryTokens(ENTRIES, text, 1) ==
              text.lex("a c") + [SymbolToken("=")] + Tokens(PAIR, text, 1) + [SymbolToken(",")]
              + (text.lex("ab") + [SymbolToken("=")] + Tokens(MARKED, text, 1) + [SymbolToken(",")]
                 + (text.lex("b") + [SymbolToken("="), StringToken("z")]))
  {
    assert Tokens(String("", "z"), text, 1) == [StringToken("z")];
    hide Tokens;
    assert ENTRIES[1..] == [ENTRIES[1], ENTRIES[2]] && ENTRIES[1..][1..] == [ENTRIES[2]];
    assert ENTRIES[1..][1..][1..] == [];
    assert EntryTokens([ENTRIES[2]], text, 1) == text.lex("b") + [SymbolToken("="), StringToken("z")];
  }

  lemma NamedTable(name: string, text: Syntax)
    requires name == "pose"
    ensures Tokens(Table("", name, ENTRIES), text, 0)
         == text.lex(name) + [SymbolToken("{")] + EntryTokens(ENTRIES, text, 1) + [SymbolToken("}")]
  {
    hide EntryTokens;
    assert !NeedsQuotes(name) by {
      assert !IllegalFrom(name, 4);
      assert !IllegalFrom(name, 3);
      assert !IllegalFrom(name, 2);
      assert !IllegalFrom(name, 1);
    }
  }

  /** The tokens around the names of the table and of its three entries. */
  function Around(name: seq<Token>, first: seq<Token>, second: seq<Token>, third: seq<Token>,
                  text: Syntax): seq<Token> {
    name + [SymbolToken("{")]
    + first + [SymbolToken("="), SymbolToken("("), NumberToken(text.digits(2.0), 2.0), SymbolToken(","),
               SymbolToken("NONE"), SymbolToken(")"), SymbolToken(",")]
    + second + [SymbolToken("="), CommentToken(FoundComment("x\ny", text.windows, 4)), SymbolToken("("),
                BooleanToken("true", true), SymbolToken(")"), SymbolToken(",")]
    + third + [SymbolToken("="), StringToken("z"), SymbolToken("}")]
  }

  lemma Regrouped(name: seq<Token>, first: seq<Token>, second: seq<Token>, third: seq<Token>, text: Syntax)
    ensures var pair := [SymbolToken("("), NumberToken(text.digits(2.0), 2.0), SymbolToken(","), SymbolToken("NONE"),
                         SymbolToken(")")];
      var marked := [CommentToken(FoundComment("x\ny", text.windows, 4)), SymbolToken("("), BooleanToken("true", true),
                     SymbolToken(")")];
      name + [SymbolToken("{")]
        + (first + [SymbolToken("=")] + pair + [SymbolToken(",")]
           + (second + [SymbolToken("=")] + marked + [SymbolToken(",")]
              + (third + [SymbolToken("="), StringToken("z")])))
        + [SymbolToken("}")]
        == Around(name, first, second, third, text)
  {
    hide FoundComment;
  }

  /** Entries in the order of their keys, the comment of an entry before its value, and parentheses around arrays. */
  method PrintTable(text: Syntax) returns (tokens: seq<Token>)
    ensures tokens == Around(text.lex("pose"), text.lex("a c"), text.lex("ab"), text.lex("b"), text)
  {
    PairIsPrinted(text);
    MarkedIsPrinted(text);
    EntriesArePrinted(text);
    NamedTable("pose", text);
    Regrouped(text.lex("pose"), text.lex("a c"), text.lex("ab"), text.lex("b"), text);
    hide *;
    var output := new TextOutput();
    output.Serialize(Table("", "pose", ENTRIES), text);
    tokens := output.tokens;
  }

  /** Four columns for each level, up to the last column but one of a line. */
  lemma IndentationIs()
    ensures IndentSpaces(0) == 0 && IndentSpaces(1) == 4 && IndentSpaces(19) == 76
    ensures IndentSpaces(20) == 79 && IndentSpaces(21) == 79
  {
  }

  // ---------- characters ----------

  lemma EscapedFirst(c: char, e: string, rest: string, more: string, s: string, all: string)
    requires EscapedChar(c) == e && Escaped(rest) == more && s == [c] + rest && all == e + more
    ensures Escaped(s) == all
  {
    hide EscapedChar;
    assert s[1..] == rest;
  }

  lemma EscapesAre()
    ensures EscapedChar('a') == "a" && EscapedChar('\n') == "\\n" && EscapedChar('\r') == "\\r"
    ensures EscapedChar('\t') == "\\t" && EscapedChar('\0') == "\\0" && EscapedChar('\\') == "\\\\"
    ensures EscapedChar('"') == "\"" && Escaped("") == ""
  {
  }

  lemma EscapedLine()
    ensures Escaped("a\n\r\t\0\\\"") == "a\\n\\r\\t\\0\\\\\""
  {
    EscapesAre();
    hide Escaped;
    hide EscapedChar;
    EscapedFirst('"', "\"", "", "", "\"", "\"");
    EscapedFirst('\\', "\\\\", "\"", "\"", "\\\"", "\\\\\"");
    EscapedFirst('\0', "\\0", "\\\"", "\\\\\"", "\0\\\"", "\\0\\\\\"");
    EscapedFirst('\t', "\\t", "\0\\\"", "\\0\\\\\"", "\t\0\\\"", "\\t\\0\\\\\"");
    EscapedFirst('\r', "\\r", "\t\0\\\"", "\\t\\0\\\\\"", "\r\t\0\\\"", "\\r\\t\\0\\\\\"");
    EscapedFirst('\n', "\\n", "\r\t\0\\\"", "\\r\\t\\0\\\\\"", "\n\r\t\0\\\"", "\\n\\r\\t\\0\\\\\"");
    EscapedFirst('a', "a", "\n\r\t\0\\\"", "\\n\\r\\t\\0\\\\\"", "a\n\r\t\0\\\"", "a\\n\\r\\t\\0\\\\\"");
  }

  /** A quotation mark is not escaped. */
  method EscapeLine() returns (escaped: string)
    ensures escaped == "a\\n\\r\\t\\0\\\\\""
  {
    EscapedLine();
    escaped := Escape("a\n\r\t\0\\\"");
  }

  lemma QuotedFirst(s: string, piece: string, next: string, text: string, rest: string, all: string)
    requires s != "" && s[0] != '"' && (s[0] == '\\' ==> |s| > 1)
    requires Piece(s) == piece && s[PieceLength(s)..] == next && QuotedString(next) == (text, rest)
    requires all == piece + text
    ensures QuotedString(s) == (all, rest)
  {
    hide QuotedString;
    hide Piece;
    hide PieceLength;
    QuotedStep(s);
  }

  lemma QuotedEnd(s6: string)
    requires s6 == "\r\n\"b"
    ensures QuotedString(s6) == ("\n", "b")
  {
    var s7 := "\"b";
    QuotedEnds(s7);
    assert s7[1..] == "b";
    assert Pair(s6, 0, '\r', '\n') && s6[2..] == s7;
    QuotedFirst(s6, "\n", s7, "", "b", "\n");
  }

  lemma QuotedMiddle(s3: string, s6: string)
    requires QuotedString(s6) == ("\n", "b") && s3 == "\\q" + ("\\\\" + ("\\\"" + s6))
    ensures QuotedString(s3) == ("\\\"\n", "b")
  {
    hide QuotedString;
    var s5 := "\\\"" + s6;
    var s4 := "\\\\" + s5;
    EscapeIs(s5, '"', "\"", s6);
    QuotedFirst(s5, "\"", s6, "\n", "b", "\"\n");
    EscapeIs(s4, '\\', "\\", s5);
    QuotedFirst(s4, "\\", s5, "\"\n", "b", "\\\"\n");
    EscapeIs(s3, 'q', "", s4);
    QuotedFirst(s3, "", s4, "\\\"\n", "b", "\\\"\n");
  }

  /** Escapes and a return with a line feed; an unknown escape is skipped, and an escaped quotation mark does not end
      the string. */
  lemma QuotedLine()
    ensures QuotedString("\\n\\r\\t\\0\\q\\\\\\\"\r\n\"b") == ("\n\r\t\0\\\"\n", "b")
  {
    hide *;
    var s6 := "\r\n\"b";
    var s3 := "\\q" + ("\\\\" + ("\\\"" + s6));
    QuotedEnd(s6);
    QuotedMiddle(s3, s6);
    QuotedFront(s3);
    assert "\\n" + ("\\r" + ("\\t" + ("\\0" + s3))) == "\\n\\r\\t\\0\\q\\\\\\\"\r\n\"b";
  }

  lemma EscapeIs(s: string, e: char, piece: string, next: string)
    requires s == ['\\', e] + next && e != '\r' && Unescaped(e) == piece
    ensures Piece(s) == piece && s[PieceLength(s)..] == next
  {
    assert s[1..][0] == e && !Pair(s[1..], 0, '\r', '\n');
  }

  lemma QuotedFront(s3: string)
    requires QuotedString(s3) == ("\\\"\n", "b")
    ensures QuotedString("\\n" + ("\\r" + ("\\t" + ("\\0" + s3)))) == ("\n\r\t\0\\\"\n", "b")
  {
    hide QuotedString;
    var s2 := "\\0" + s3;
    var s1 := "\\t" + s2;
    var s0 := "\\r" + s1;
    EscapeIs(s2, '0', "\0", s3);
    QuotedFirst(s2, "\0", s3, "\\\"\n", "b", "\0\\\"\n");
    EscapeIs(s1, 't', "\t", s2);
    QuotedFirst(s1, "\t", s2, "\0\\\"\n", "b", "\t\0\\\"\n");
    EscapeIs(s0, 'r', "\r", s1);
    QuotedFirst(s0, "\r", s1, "\t\0\\\"\n", "b", "\r\t\0\\\"\n");
    EscapeIs("\\n" + s0, 'n', "\n", s0);
    QuotedFirst("\\n" + s0, "\n", s0, "\r\t\0\\\"\n", "b", "\n\r\t\0\\\"\n");
  }

  method ParseLine() returns (text: string, offset: nat)
    ensures text == "\n\r\t\0\\\"\n" && offset == 17
  {
    QuotedLine();
    var buffer := "\\n\\r\\t\\0\\q\\\\\\\"\r\n\"b";
    hide QuotedString;
    assert buffer[0..] == buffer;
    text, offset := ParseQuotedString(buffer, 0);
    assert |buffer[offset..]| == |buffer| - offset;
  }

  lemma ConvertedFirst(s: string, windows: bool, n: nat, piece: string, more: string, all: string)
    requires s != "" && n == (if s[0] != '\n' && Pair(s, 0, '\r', '\n') then 2 else 1) && n <= |s|
    requires piece == if s[0] == '\n' || n == 2 then (if windows then "\r\n" else "\n") else [s[0]]
    requires Converted(s[n..], windows) == more && all == piece + more
    ensures Converted(s, windows) == all
  {
    hide Converted;
    assert "" + Converted(s, windows) == Converted(s, windows);
    ConvertedContinues(s, windows, "");
    assert "" + piece + more == all;
  }

  lemma ConvertedEnd(windows: bool)
    ensures Converted("c\rd", windows) == "c\rd"
  {
    assert Converted("", windows) == "";
    hide Converted;
    assert "d"[1..] == "" && "\rd"[1..] == "d" && "c\rd"[1..] == "\rd";
    ConvertedFirst("d", windows, 1, "d", "", "d");
    ConvertedFirst("\rd", windows, 1, "\r", "d", "\rd");
    ConvertedFirst("c\rd", windows, 1, "c", "\rd", "c\rd");
  }

  lemma ConvertedMiddle(windows: bool, end: string)
    requires end == if windows then "\r\n" else "\n"
    ensures Converted("b\r\nc\rd", windows) == "b" + end + "c\rd"
  {
    hide Converted;
    ConvertedEnd(windows);
    assert "\r\nc\rd"[2..] == "c\rd" && "b\r\nc\rd"[1..] == "\r\nc\rd" && Pair("\r\nc\rd", 0, '\r', '\n');
    ConvertedFirst("\r\nc\rd", windows, 2, end, "c\rd", end + "c\rd");
    ConvertedFirst("b\r\nc\rd", windows, 1, "b", end + "c\rd", "b" + end + "c\rd");
  }

  /** A return on its own stays. */
  lemma ConvertedLine(windows: bool)
    ensures Converted("a\nb\r\nc\rd", windows) == if windows then "a\r\nb\r\nc\rd" else "a\nb\nc\rd"
  {
    hide Converted;
    var end := if windows then "\r\n" else "\n";
    ConvertedMiddle(windows, end);
    assert "\nb\r\nc\rd"[1..] == "b\r\nc\rd" && "a\nb\r\nc\rd"[1..] == "\nb\r\nc\rd";
    var more := "b" + end + "c\rd";
    ConvertedFirst("\nb\r\nc\rd", windows, 1, end, more, end + more);
    ConvertedFirst("a\nb\r\nc\rd", windows, 1, "a", end + more, "a" + end + more);
    assert "a" + end + more == if windows then "a\r\nb\r\nc\rd" else "a\nb\nc\rd";
  }

  method ConvertLine(windows: bool) returns (text: string)
    ensures text == if windows then "a\r\nb\r\nc\rd" else "a\nb\nc\rd"
  {
    ConvertedLine(windows);
    hide Converted;
    text := ConvertNewlines("a\nb\r\nc\rd", windows);
  }

  lemma IndentedFirst(s: string, indent: nat, atStart: bool, blanks: string, more: string, all: string)
    requires s != "" && blanks == (if atStart then Blanks(indent) else "")
    requires Indented(s[1..], indent, s[0] == '\n') == more && all == blanks + [s[0]] + more
    ensures Indented(s, indent, atStart) == all
  {
    hide Blanks;
  }

  /** Both lines are indented, and the next one is to be. */
  method IndentLines() returns (text: string, next: bool)
    ensures text == "  a\n  b\n" && next
  {
    assert Indented("", 2, true) == "" && Blanks(2) == "  ";
    hide Indented;
    hide Blanks;
    assert "\n"[1..] == "" && "b\n"[1..] == "\n" && "\nb\n"[1..] == "b\n" && "a\nb\n"[1..] == "\nb\n";
    IndentedFirst("\n", 2, false, "", "", "\n");
    IndentedFirst("b\n", 2, true, "  ", "\n", "  b\n");
    IndentedFirst("\nb\n", 2, false, "", "  b\n", "\n  b\n");
    IndentedFirst("a\nb\n", 2, true, "  ", "\n  b\n", "  a\n  b\n");
    text, next := IndentAppend("a\nb\n", 2, true);
  }

  lemma BlockFirst(s: string, n: nat, more: string, rest: string, all: string)
    requires s != "" && !Pair(s, 0, '*', '/') && n == (if Pair(s, 0, '\r', '\n') then 2 else 1) && n <= |s|
    requires BlockComment(s[n..]) == (more, rest) && all == [s[0]] + more
    ensures BlockComment(s) == (all, rest)
  {
    hide BlockComment;
    BlockContinues(s, "");
    assert "" + BlockComment(s).0 == BlockComment(s).0 && "" + [s[0]] + more == all;
  }

  /** A star alone does not end a comment, and of a return with a line feed the return stays. */
  method ReadStarredComment() returns (comment: string, offset: nat)
    ensures comment == "a*b\rc" && offset == 8
  {
    var buffer := "a*b\r\nc*/d";
    hide BlockComment;
    assert "*/d"[2..] == "d" && "c*/d"[1..] == "*/d" && "\r\nc*/d"[2..] == "c*/d" && "b\r\nc*/d"[1..] == "\r\nc*/d";
    assert "*b\r\nc*/d"[1..] == "b\r\nc*/d" && buffer[1..] == "*b\r\nc*/d" && buffer[0..] == buffer;
    assert Pair("*/d", 0, '*', '/') && Pair("\r\nc*/d", 0, '\r', '\n');
    BlockContinues("*/d", "");
    BlockFirst("c*/d", 1, "", "d", "c");
    BlockFirst("\r\nc*/d", 2, "c", "d", "\rc");
    BlockFirst("b\r\nc*/d", 1, "\rc", "d", "b\rc");
    BlockFirst("*b\r\nc*/d", 1, "b\rc", "d", "*b\rc");
    BlockFirst(buffer, 1, "*b\rc", "d", "a*b\rc");
    comment, offset := ReadBlockComment(buffer, 0);
    assert |buffer[offset..]| == |buffer| - offset;
  }
}

/** What the parser makes of the tokens of a printed value: for exactly which values that is the value again. */
module AnyRoundTrip {
  import opened Results
  import opened AnyParser
  import opened AnyPrinter
  import opened AnyTables
  import opened AnyText
  import opened AnyTokens

  function WithoutComment(v: Any): Any {
    Annotated(v, "")
  }

  lemma ReadNext(t: Token, more: seq<Token>)
    ensures Start([t] + more) == Input(t, more) && Input(t, more).Read() == Start(more)
  {
  }

  lemma StartOf(tokens: seq<Token>, more: seq<Token>)
    requires tokens != []
    ensures Start(tokens + more).token == tokens[0]
  {
  }

  lemma NameStep(p: string, before: string, rest: seq<Token>)
    requires (p == "" || !IsOpen(p[0])) && Start(rest).token.SymbolToken?
    ensures var at := Start([SymbolToken(p)] + rest);
      at.token == SymbolToken(p) && ParseName(at, before) == ParseName(Start(rest), before + p)
  {
    ReadNext(SymbolToken(p), rest);
  }

  lemma NameEnds(open: string, before: string, more: seq<Token>)
    requires open != "" && IsOpen(open[0])
    ensures var at := Start([SymbolToken(open)] + more);
      at.token == SymbolToken(open) && ParseName(at, before) == Ok((before, Input(SymbolToken(open), more)))
  {
    ReadNext(SymbolToken(open), more);
  }

  /** The symbols of a name and an opening symbol are read as that name. */
  lemma {:induction false} NameIsRead(pieces: seq<string>, before: string, open: string, more: seq<Token>)
    requires forall i :: 0 <= i < |pieces| ==> pieces[i] == "" || !IsOpen(pieces[i][0])
    requires open != "" && IsOpen(open[0])
    ensures var at := Start(Symbols(pieces) + [SymbolToken(open)] + more);
      at.token.SymbolToken? && ParseName(at, before) == Ok((before + Concat(pieces), Input(SymbolToken(open), more)))
    decreases |pieces|
  {
    hide ParseName;
    hide Start;
    if pieces == [] {
      assert Symbols(pieces) + [SymbolToken(open)] + more == [SymbolToken(open)] + more;
      NameEnds(open, before, more);
      assert before + Concat(pieces) == before;
    } else {
      NameIsRead(pieces[1..], before + pieces[0], open, more);
      var rest := Symbols(pieces[1..]) + [SymbolToken(open)] + more;
      assert Symbols(pieces) + [SymbolToken(open)] + more == [SymbolToken(pieces[0])] + rest;
      NameStep(pieces[0], before, rest);
      assert before + pieces[0] + Concat(pieces[1..]) == before + Concat(pieces);
    }
  }

  /** A value starts with a token that is neither comment, line end, end of file nor closing symbol. */
  lemma BareStart(v: Any, text: Syntax, depth: nat)
    requires Printable(v, text)
    ensures var tokens := BareTokens(v, text, depth);
      && tokens != [] && !tokens[0].EndToken? && !tokens[0].CommentToken? && !tokens[0].NewlineToken?
      && (tokens[0].SymbolToken? ==> !IsClose(tokens[0].First()))
      && (tokens[0].IsSymbol("=") ==> v.Array? && v.name != "" && StartsWithEquals(text.lex(v.name)))
  {
    if v.Table? && !Quoted(v) && v.name != "" {
      UnquotedStart(v.name, text);
    }
  }

  /** A name that needs no quotes starts with a letter or an underscore. */
  lemma UnquotedStart(name: string, text: Syntax)
    requires name != "" && !NeedsQuotes(name) && ProperName(name, text)
    ensures !text.lex(name)[0].IsSymbol("=")
  {
  }

  lemma {:induction false} EndTrimmed(s: string)
    ensures TrimEnd(s) <= s && (TrimEnd(s) == "" || !IsWhiteSpace(TrimEnd(s)[|TrimEnd(s)| - 1]))
  {
    if s != "" && IsWhiteSpace(s[|s| - 1]) {
      EndTrimmed(s[..|s| - 1]);
    }
  }

  lemma {:induction false} StartTrimmed(s: string)
    ensures TrimStart(s) == "" || !IsWhiteSpace(TrimStart(s)[0])
  {
    if s != "" && IsWhiteSpace(s[0]) {
      StartTrimmed(s[1..]);
    }
  }

  /** Trimming changes nothing exactly if there is no white space at the ends. */
  lemma TrimmedExactly(s: string)
    ensures TrimWhitespace(s) == s <==> s == "" || (!IsWhiteSpace(s[0]) && !IsWhiteSpace(s[|s| - 1]))
  {
  }

  lemma TrimmedOnce(s: string)
    ensures TrimWhitespace(TrimWhitespace(s)) == TrimWhitespace(s)
  {
    StartTrimmed(s);
    EndTrimmed(TrimStart(s));
    TrimmedExactly(TrimWhitespace(s));
  }

  /** A comment is read without the blanks around it and the line ends put behind it. */
  lemma CommentIsRead(found: string, more: seq<Token>)
    requires !Start(more).token.CommentToken? && !Start(more).token.NewlineToken?
    ensures Comments(Start([CommentToken(found)] + more), "") == (TrimWhitespace(found), Start(more))
  {
    var t, c := CommentToken(found), TrimWhitespace(found);
    ReadNext(t, more);
    TrimmedOnce(found);
    if c == "" {
      assert TrimStart("\n" + "\n") == TrimStart("\n") == TrimStart("");
    } else {
      TrimPadded(c);
    }
    hide TrimWhitespace;
    var at := Start([t] + more);
    var lines := "" + c + "\n";
    assert lines == c + "\n";
    assert CommentLines(at, lines) == (lines + "\n", Start(more));
  }

  /** For every printable value, whatever follows it, the parser does exactly what Outcome says. */
  lemma {:induction false} WhatIsRead(v: Any, text: Syntax, depth: nat, more: seq<Token>)
    requires Printable(v, text)
    ensures Parse(Start(Tokens(v, text, depth) + more)) == Outcome(v, text, depth, more)
    decreases v, 1
  {
    hide *;
    var tokens := BareTokens(v, text, depth);
    var bare := tokens + more;
    BareIsParsed(v, text, depth, more);
    BareStart(v, text, depth);
    StartOf(tokens, more);
    TokensOf(v, text, depth, more);
    Recommented(v, text, depth, more);
    if v.comment == "" {
      ParsePlain(Start(bare));
    } else {
      var found := FoundComment(v.comment, text.windows, IndentSpaces(depth));
      CommentIsRead(found, bare);
      ReadNext(CommentToken(found), bare);
      ParseCommented(Start([CommentToken(found)] + bare), TrimWhitespace(found), Start(bare));
    }
  }

  lemma TokensOf(v: Any, text: Syntax, depth: nat, more: seq<Token>)
    ensures var bare := BareTokens(v, text, depth) + more;
      Tokens(v, text, depth) + more
        == if v.comment == "" then bare
           else [CommentToken(FoundComment(v.comment, text.windows, IndentSpaces(depth)))] + bare
  {
    hide BareTokens;
    hide FoundComment;
  }

  lemma Recommented(v: Any, text: Syntax, depth: nat, more: seq<Token>)
    ensures v.comment == "" ==> WithoutComment(v) == v
    ensures var found := FoundComment(v.comment, text.windows, IndentSpaces(depth));
      var c := if v.comment == "" then "" else TrimWhitespace(found);
      Commented(Outcome(WithoutComment(v), text, depth, more), c) == Outcome(v, text, depth, more)
  {
    hide FoundComment;
    hide TrimWhitespace;
  }

  function Commented(parsed: Parsed<(Any, Input)>, comment: string): Parsed<(Any, Input)> {
    match parsed
    case Failure(e) => Failure(e)
    case Ok((v, next)) => Ok((WithComment(v, comment), next))
  }

  lemma ParsePlain(at: Input)
    requires !at.token.EndToken? && !at.token.CommentToken? && !at.token.NewlineToken?
    ensures Parse(at) == ParseValue(at)
  {
    hide ParseValue;
  }

  lemma ParseCommented(at: Input, comment: string, bare: Input)
    requires at.token.CommentToken? && Comments(at, "") == (comment, bare) && !bare.token.EndToken?
    ensures Parse(at) == Commented(ParseValue(bare), comment)
  {
    hide ParseValue;
    hide Comments;
  }

  lemma SimpleIsParsed(v: Any, text: Syntax, depth: nat, more: seq<Token>)
    requires !v.Table? && !v.Array?
    ensures var at := Start(BareTokens(v, text, depth) + more);
      !at.token.EndToken? && ParseValue(at) == Outcome(WithoutComment(v), text, depth, more)
  {
    var tokens := BareTokens(v, text, depth);
    assert tokens == [tokens[0]];
    ReadNext(tokens[0], more);
    assert ToUpper("NONE") == "NONE";
  }

  /** A quoted name is read as a string, up to the brace. */
  lemma QuotedIsParsed(v: Any, text: Syntax, depth: nat, more: seq<Token>)
    requires Quoted(v)
    ensures var at := Start(BareTokens(v, text, depth) + more);
      !at.token.EndToken? && ParseValue(at) == Outcome(WithoutComment(v), text, depth, more)
  {
    var rest := QuotedRest(v, text, depth, more);
    hide EntryTokens;
    assert BareTokens(v, text, depth) + more == [StringToken(v.name)] + ([SymbolToken("{")] + rest);
    ReadNext(StringToken(v.name), [SymbolToken("{")] + rest);
    ReadNext(SymbolToken("{"), rest);
  }

  function TableOf(name: string, body: Parsed<(seq<Entry>, Input)>): Parsed<(Any, Input)> {
    match body
    case Failure(e) => Failure(e)
    case Ok((entries, next)) => Ok((Table("", name, entries), next))
  }

  lemma TableValue(at: Input, name: string, body: seq<Token>)
    requires at.token.SymbolToken? && at.token.text != "#" && ToUpper(at.token.text) != "NONE"
    requires ParseName(at, "") == Ok((name, Input(SymbolToken("{"), body)))
    ensures ParseValue(at) == TableOf(name, ParseEntries(Start(body), '}', []))
  {
    hide ParseName;
    hide ParseEntries;
    hide ToUpper;
    ReadNext(SymbolToken("{"), body);
  }

  function ArrayOf(name: string, body: Parsed<(seq<Any>, Input)>): Parsed<(Any, Input)> {
    match body
    case Failure(e) => Failure(e)
    case Ok((elements, next)) => Ok((Array("", name, elements), next))
  }

  lemma ArrayValue(at: Input, name: string, body: seq<Token>)
    requires at.token.SymbolToken? && at.token.text != "#" && ToUpper(at.token.text) != "NONE"
    requires ParseName(at, "") == Ok((name, Input(SymbolToken("("), body)))
    ensures ParseValue(at) == ArrayOf(name, ParseElements(Start(body), ')', []))
  {
    hide ParseName;
    hide ParseElements;
    hide ToUpper;
    ReadNext(SymbolToken("("), body);
  }

  lemma {:induction false} BareIsParsed(v: Any, text: Syntax, depth: nat, more: seq<Token>)
    requires Printable(v, text)
    ensures var at := Start(BareTokens(v, text, depth) + more);
      !at.token.EndToken? && ParseValue(at) == Outcome(WithoutComment(v), text, depth, more)
    decreases v, 0
  {
    hide BareTokens;
    hide ParseValue;
    hide ParseEntries;
    hide ParseElements;
    hide ParseName;
    hide Start;
    hide EntriesFault;
    hide ElementsFault;
    if Quoted(v) {
      QuotedIsParsed(v, text, depth, more);
    } else {
      match v
      case Table(_, name, entries) =>
        var body := EntryTokens(entries, text, depth + 1) + [SymbolToken("}")] + more;
        TableOpens(v, text, depth, more, body);
        assert [] + RereadEntries(entries, text, depth + 1) == RereadEntries(entries, text, depth + 1);
        assert [] + entries == entries;
        EntriesAreParsed([], entries, text, depth + 1, more);
        TableValue(Start(BareTokens(v, text, depth) + more), name, body);
      case Array(_, name, elements) =>
        var body := ElementTokens(elements, text, depth + 1) + [SymbolToken(")")] + more;
        ArrayOpens(v, text, depth, more, body);
        assert [] + RereadElements(elements, text, depth + 1) == RereadElements(elements, text, depth + 1);
        ElementsAreParsed([], elements, text, depth + 1, more);
        ArrayValue(Start(BareTokens(v, text, depth) + more), name, body);
      case _ =>
        SimpleIsParsed(v, text, depth, more);
    }
  }

  lemma OpensWith(name: string, text: Syntax, open: string, body: seq<Token>)
    requires ProperName(name, text) && (open == "(" || open == "{")
    ensures var at := Start(WordTokens(name, text) + [SymbolToken(open)] + body);
      && at.token.SymbolToken? && ParseName(at, "") == Ok((name, Input(SymbolToken(open), body)))
      && at.token.text != "#" && ToUpper(at.token.text) != "NONE"
  {
    assert ToUpper(open) == open;
    var pieces := if name == "" then [] else Texts(text.lex(name));
    NameIsRead(pieces, "", open, body);
    hide ParseName;
    hide ToUpper;
    assert "" + Concat(pieces) == name;
    assert Symbols([]) == [];
  }

  lemma TableOpens(v: Any, text: Syntax, depth: nat, more: seq<Token>, body: seq<Token>)
    requires v.Table? && !Quoted(v) && Printable(v, text)
             && body == EntryTokens(v.entries, text, depth + 1) + [SymbolToken("}")] + more
    ensures var at := Start(BareTokens(v, text, depth) + more);
      && at.token.SymbolToken? && ParseName(at, "") == Ok((v.name, Input(SymbolToken("{"), body)))
      && at.token.text != "#" && ToUpper(at.token.text) != "NONE"
  {
    hide EntryTokens;
    hide WordTokens;
    hide ToUpper;
    hide ParseName;
    hide Start;
    OpensWith(v.name, text, "{", body);
    assert BareTokens(v, text, depth) + more == WordTokens(v.name, text) + [SymbolToken("{")] + body;
  }

  lemma ArrayOpens(v: Any, text: Syntax, depth: nat, more: seq<Token>, body: seq<Token>)
    requires v.Array? && Printable(v, text)
             && body == ElementTokens(v.elements, text, depth + 1) + [SymbolToken(")")] + more
    ensures var at := Start(BareTokens(v, text, depth) + more);
      && at.token.SymbolToken? && ParseName(at, "") == Ok((v.name, Input(SymbolToken("("), body)))
      && at.token.text != "#" && ToUpper(at.token.text) != "NONE"
  {
    hide ElementTokens;
    hide WordTokens;
    hide ToUpper;
    hide ParseName;
    hide Start;
    OpensWith(v.name, text, "(", body);
    assert BareTokens(v, text, depth) + more == WordTokens(v.name, text) + [SymbolToken("(")] + body;
  }

  /** An element is read behind the comment in front of it, which is put back afterwards. */
  lemma ElementIsRead(v: Any, text: Syntax, depth: nat, more: seq<Token>)
    requires Printable(v, text)
    ensures var at := Start(Tokens(v, text, depth) + more);
      var bare := Start(BareTokens(v, text, depth) + more);
      && Comments(at, "") == (RereadComment(v.comment, text, depth), bare)
      && !IsCloseSymbol(at.token, ')') && !IsCloseSymbol(bare.token, ')')
      && !bare.token.EndToken? && Parse(bare) == ParseValue(bare)
  {
    hide *;
    var tokens := BareTokens(v, text, depth);
    var bare := tokens + more;
    BareStart(v, text, depth);
    StartOf(tokens, more);
    TokensOf(v, text, depth, more);
    NoCloseSymbol(tokens[0]);
    ParsePlain(Start(bare));
    CommentReread(v.comment, text, depth);
    if v.comment == "" {
      NoComment(Start(bare));
    } else {
      var found := FoundComment(v.comment, text.windows, IndentSpaces(depth));
      CommentIsRead(found, bare);
      ReadNext(CommentToken(found), bare);
      NoCloseSymbol(CommentToken(found));
    }
  }

  lemma CommentReread(comment: string, text: Syntax, depth: nat)
    ensures RereadComment(comment, text, depth)
         == if comment == "" then "" else TrimWhitespace(FoundComment(comment, text.windows, IndentSpaces(depth)))
  {
  }

  lemma NoCloseSymbol(t: Token)
    requires t.SymbolToken? ==> !IsClose(t.First())
    ensures !IsCloseSymbol(t, ')')
  {
  }

  lemma NoComment(at: Input)
    requires !at.token.CommentToken?
    ensures Comments(at, "") == ("", at)
  {
    assert TrimWhitespace("") == "";
  }

  /** The comment in front of an element becomes its own. */
  lemma Leading(v: Any, text: Syntax, depth: nat)
    ensures WithLeading(Reread(WithoutComment(v), text, depth), RereadComment(v.comment, text, depth))
         == Reread(v, text, depth)
  {
    var found, c := FoundComment(v.comment, text.windows, IndentSpaces(depth)), RereadComment(v.comment, text, depth);
    TrimmedOnce(found);
    hide FoundComment;
    assert TrimWhitespace("") == "";
    if c != "" {
      TrimPadded(c);
      assert c + "\n" + "" == c + "\n";
    }
    hide TrimWhitespace;
  }

  /** What follows an item is its comma or the closing symbol. */
  lemma ItemEnds<T>(rest: seq<T>, close: string, tokens: seq<Token>, more: seq<Token>)
    requires close != "" && IsClose(close[0]) && (rest == [] ==> tokens == [])
    ensures AfterItem(Start(Comma(rest) + tokens + [SymbolToken(close)] + more))
              == Ok(Start(tokens + [SymbolToken(close)] + more))
  {
    if rest == [] {
      assert Comma(rest) + tokens + [SymbolToken(close)] + more == [SymbolToken(close)] + more;
      assert tokens + [SymbolToken(close)] + more == [SymbolToken(close)] + more;
      ReadNext(SymbolToken(close), more);
    } else {
      assert Comma(rest) + tokens + [SymbolToken(close)] + more
               == [SymbolToken(",")] + (tokens + [SymbolToken(close)] + more);
      ReadNext(SymbolToken(","), tokens + [SymbolToken(close)] + more);
    }
  }

  /** One turn of the loop over the elements. */
  lemma ElementStep(at: Input, close: char, comment: string, bare: Input, v: Any, end: Input, next: Input,
                    before: seq<Any>)
    requires !IsCloseSymbol(at.token, close) && Comments(at, "") == (comment, bare) && !IsCloseSymbol(bare.token, close)
    requires Parse(bare) == Ok((v, end)) && AfterItem(end) == Ok(next)
    ensures ParseElements(at, close, before) == ParseElements(next, close, before + [WithLeading(v, comment)])
  {
    hide Comments;
    hide Parse;
    hide AfterItem;
    hide WithLeading;
    hide IsCloseSymbol;
  }

  /** The brace behind a quoted name is no separator. */
  lemma BraceIsNoSeparator(rest: seq<Token>)
    ensures AfterItem(Input(SymbolToken("{"), rest)) == Failure(ExpectedCommaOrClose)
  {
  }

  /** How the loop over the elements goes on, or stops, after one that is read as v. */
  lemma ElementStops(at: Input, comment: string, bare: Input, before: seq<Any>, e: Error)
    requires !IsCloseSymbol(at.token, ')') && Comments(at, "") == (comment, bare) && !IsCloseSymbol(bare.token, ')')
    requires Parse(bare) == Failure(e) || (Parse(bare).Ok? && AfterItem(Parse(bare).value.1) == Failure(e))
    ensures ParseElements(at, ')', before) == Failure(e)
  {
    hide Comments;
    hide Parse;
    hide AfterItem;
    hide IsCloseSymbol;
  }

  lemma ElementsEnd(elements: seq<Any>, more: seq<Token>)
    ensures ParseElements(Start([SymbolToken(")")] + more), ')', elements) == Ok((elements, Start(more)))
  {
    ReadNext(SymbolToken(")"), more);
  }

  function Read<T>(fault: Fault, all: seq<T>, next: Input): Parsed<(seq<T>, Input)> {
    match fault
    case NoFault => Ok((all, next))
    case Fault(e) => Failure(e)
  }

  /** What becomes of the loop after the item at hand; nothing if the item is in order. */
  lemma ItemOutcome(v: Any, text: Syntax, depth: nat, more: seq<Token>)
    ensures match ItemFault(v, text)
            case NoFault => Outcome(v, text, depth, more) == Ok((Reread(v, text, depth), Start(more)))
            case Fault(e) =>
              || Outcome(v, text, depth, more) == Failure(e)
              || (Outcome(v, text, depth, more).Ok? && AfterItem(Outcome(v, text, depth, more).value.1) == Failure(e))
  {
    hide Reread;
    if Quoted(v) {
      BraceIsNoSeparator(QuotedRest(v, text, depth, more));
    }
  }

  lemma {:induction false} ElementsAreParsed(before: seq<Any>, elements: seq<Any>, text: Syntax, depth: nat,
                                             more: seq<Token>)
    requires forall i :: 0 <= i < |elements| ==> Printable(elements[i], text)
    ensures ParseElements(Start(ElementTokens(elements, text, depth) + [SymbolToken(")")] + more), ')', before)
         == Read(ElementsFault(elements, text), before + RereadElements(elements, text, depth), Start(more))
    decreases elements, 0
  {
    hide ParseElements;
    hide Printable;
    hide Tokens;
    hide BareTokens;
    hide ParseValue;
    hide Parse;
    hide Comments;
    hide WithLeading;
    hide WithoutComment;
    hide Start;
    hide IsCloseSymbol;
    hide AfterItem;
    hide Outcome;
    hide ItemFault;
    hide Reread;
    hide RereadComment;
    var close := [SymbolToken(")")];
    if elements == [] {
      assert ElementTokens(elements, text, depth) + close + more == close + more;
      assert before + RereadElements(elements, text, depth) == before;
      ElementsEnd(before, more);
    } else {
      var v, rest := elements[0], elements[1..];
      var tokens, c, w := ElementTokens(rest, text, depth), RereadComment(v.comment, text, depth),
                          Reread(v, text, depth);
      var after := Comma(rest) + tokens + close + more;
      var at, bare := Start(Tokens(v, text, depth) + after), Start(BareTokens(v, text, depth) + after);
      assert ElementTokens(elements, text, depth) + close + more == Tokens(v, text, depth) + after;
      BareIsParsed(v, text, depth, after);
      ElementIsRead(v, text, depth, after);
      ItemOutcome(WithoutComment(v), text, depth, after);
      SameFault(v, text);
      if ItemFault(v, text) == NoFault {
        ItemEnds(rest, ")", tokens, more);
        Leading(v, text, depth);
        ElementStep(at, ')', c, bare, Reread(WithoutComment(v), text, depth), Start(after),
                    Start(tokens + close + more), before);
        ElementsAreParsed(before + [w], rest, text, depth, more);
        assert before + [w] + RereadElements(rest, text, depth) == before + RereadElements(elements, text, depth);
      } else {
        ElementStops(at, c, bare, before, ItemFault(v, text).error);
      }
    }
  }

  lemma SameFault(v: Any, text: Syntax)
    ensures ItemFault(WithoutComment(v), text) == ItemFault(v, text)
  {
  }

  lemma SetLast(entries: seq<Entry>, key: string, value: Any)
    requires entries == [] || Less(entries[|entries| - 1].key, key)
    ensures SetEntry(entries, key, value) == entries + [Entry(key, value)]
  {
    if entries != [] {
      NotLessItself(key);
    }
  }

  /** Whether the next token but comments and line ends is an equals sign. */
  predicate EqualsFollows(tokens: seq<Token>) {
    ReadSignificant(Input(SymbolToken("="), tokens)).token.IsSymbol("=")
  }

  function KeyOutcome(key: string, fault: Fault, next: Input): Parsed<(string, Input)> {
    match fault
    case NoFault => Ok((key, next))
    case Fault(e) => Failure(e)
  }

  lemma EmptyKeyIsRead(more: seq<Token>)
    requires !EqualsFollows(more)
    ensures ParseKey(Start([SymbolToken("=")] + more)) == Failure(ExpectedEquals)
  {
    ReadNext(SymbolToken("="), more);
  }

  lemma SingleKeyIsRead(t: Token, more: seq<Token>)
    requires !t.StringToken?
    ensures ParseKey(Start([t] + ([SymbolToken("=")] + more)))
         == if t.SymbolToken? then Ok((t.text, Start(more))) else Failure(ExpectedName)
  {
    ReadNext(t, [SymbolToken("=")] + more);
    ReadNext(SymbolToken("="), more);
  }

  lemma SplitKeyIsRead(t: Token, u: Token, more: seq<Token>)
    requires !t.StringToken? && (t.SymbolToken? ==> !u.CommentToken? && !u.NewlineToken? && !u.IsSymbol("="))
    ensures ParseKey(Start([t] + ([u] + more))) == Failure(if t.SymbolToken? then ExpectedEquals else ExpectedName)
  {
    ReadNext(t, [u] + more);
    ReadNext(u, more);
  }

  /** What the loop over the entries makes of a key and the equals sign. */
  lemma KeyIsRead(key: string, text: Syntax, more: seq<Token>)
    requires if key == "" then !EqualsFollows(more) else PlainKey(key, text)
    ensures var at := Start(WordTokens(key, text) + [SymbolToken("=")] + more);
      && !IsCloseSymbol(at.token, '}') && Comments(at, "") == ("", at)
      && ParseKey(at) == KeyOutcome(key, KeyFault(key, text), Start(more))
  {
    hide ParseKey;
    hide Comments;
    hide EqualsFollows;
    var tokens, equals := WordTokens(key, text), [SymbolToken("=")] + more;
    var all := tokens + equals;
    assert tokens + [SymbolToken("=")] + more == all;
    NoComment(Start(all));
    if key == "" {
      assert all == equals;
      EmptyKeyIsRead(more);
    } else if |tokens| == 1 {
      assert all == [tokens[0]] + equals;
      SingleKeyIsRead(tokens[0], more);
    } else {
      assert all == [tokens[0]] + ([tokens[1]] + (tokens[2..] + equals));
      SplitKeyIsRead(tokens[0], tokens[1], tokens[2..] + equals);
    }
  }

  lemma EqualsBehind(t: Token, more: seq<Token>)
    ensures EqualsFollows([t] + more)
        <==> if t.CommentToken? || t.NewlineToken? then EqualsFollows(more) else t.IsSymbol("=")
  {
    ReadNext(t, more);
    var at, equals := Input(t, more), Input(SymbolToken("="), more);
    assert Input(SymbolToken("="), [t] + more).Read() == at && at.Read() == equals.Read();
    if t.CommentToken? || t.NewlineToken? {
      assert ReadSignificant(at) == ReadSignificant(equals);
    }
  }

  /** The value after an empty key does not look like an equals sign. */
  lemma NoEquals(e: Entry, text: Syntax, depth: nat, more: seq<Token>)
    requires Printable(e.value, text) && PlainEntry(e, text) && e.key == ""
    ensures !EqualsFollows(Tokens(e.value, text, depth) + more)
  {
    hide *;
    var v := e.value;
    var tokens := BareTokens(v, text, depth);
    BareStart(v, text, depth);
    TokensOf(v, text, depth, more);
    NoStart(e, text, tokens[0]);
    EqualsBehind(tokens[0], tokens[1..] + more);
    assert tokens + more == [tokens[0]] + (tokens[1..] + more);
    if v.comment != "" {
      EqualsBehind(CommentToken(FoundComment(v.comment, text.windows, IndentSpaces(depth))), tokens + more);
    }
  }

  lemma NoStart(e: Entry, text: Syntax, t: Token)
    requires PlainEntry(e, text) && e.key == ""
    requires t.IsSymbol("=") ==> e.value.Array? && e.value.name != "" && StartsWithEquals(text.lex(e.value.name))
    ensures !t.IsSymbol("=")
  {
  }

  /** One turn of the loop over the entries. */
  lemma EntryStep(at: Input, comment: string, name: Input, key: string, value: Input, v: Any, end: Input, next: Input,
                  before: seq<Entry>)
    requires !IsCloseSymbol(at.token, '}') && Comments(at, "") == (comment, name) && !IsCloseSymbol(name.token, '}')
    requires ParseKey(name) == Ok((key, value)) && Parse(value) == Ok((v, end)) && AfterItem(end) == Ok(next)
    ensures ParseEntries(at, '}', before)
         == ParseEntries(next, '}', SetEntry(before, key, WithLeading(v, comment)))
  {
    hide Comments;
    hide ParseKey;
    hide Parse;
    hide AfterItem;
    hide SetEntry;
    hide WithLeading;
    hide IsCloseSymbol;
  }

  lemma EntryStops(at: Input, before: seq<Entry>, e: Error)
    requires !IsCloseSymbol(at.token, '}') && Comments(at, "") == ("", at)
    requires match ParseKey(at)
             case Failure(e') => e' == e
             case Ok((_, value)) =>
               Parse(value) == Failure(e) || (Parse(value).Ok? && AfterItem(Parse(value).value.1) == Failure(e))
    ensures ParseEntries(at, '}', before) == Failure(e)
  {
    hide Comments;
    hide ParseKey;
    hide Parse;
    hide AfterItem;
    hide IsCloseSymbol;
  }

  lemma EntriesEnd(entries: seq<Entry>, more: seq<Token>)
    ensures ParseEntries(Start([SymbolToken("}")] + more), '}', entries) == Ok((entries, Start(more)))
  {
    ReadNext(SymbolToken("}"), more);
  }

  lemma NoEntries(before: seq<Entry>, entries: seq<Entry>, text: Syntax, depth: nat, more: seq<Token>)
    ensures entries == [] ==>
              EntryTokens(entries, text, depth) == [] && before + RereadEntries(entries, text, depth) == before
  {
  }

  lemma FirstEntry(entries: seq<Entry>, text: Syntax, depth: nat, more: seq<Token>)
    requires entries != []
    ensures var e, rest := entries[0], entries[1..];
      var after := Comma(rest) + EntryTokens(rest, text, depth) + more;
      EntryTokens(entries, text, depth) + more
        == WordTokens(e.key, text) + [SymbolToken("=")] + (Tokens(e.value, text, depth) + after)
  {
    hide Tokens;
    hide WordTokens;
    hide Comma;
  }

  lemma FirstReread(before: seq<Entry>, entries: seq<Entry>, text: Syntax, depth: nat)
    requires entries != []
    ensures before + [Entry(entries[0].key, Reread(entries[0].value, text, depth))]
              + RereadEntries(entries[1..], text, depth)
         == before + RereadEntries(entries, text, depth)
  {
    hide Reread;
  }

  lemma {:induction false} EntriesAreParsed(before: seq<Entry>, entries: seq<Entry>, text: Syntax, depth: nat,
                                            more: seq<Token>)
    requires forall i :: 0 <= i < |entries| ==> PlainEntry(entries[i], text) && Printable(entries[i].value, text)
    requires Ascending(before + entries)
    ensures ParseEntries(Start(EntryTokens(entries, text, depth) + [SymbolToken("}")] + more), '}', before)
         == Read(EntriesFault(entries, text), before + RereadEntries(entries, text, depth), Start(more))
    decreases entries, 0
  {
    hide ParseEntries;
    hide ParseKey;
    hide Printable;
    hide Tokens;
    hide WordTokens;
    hide Start;
    hide Less;
    hide Outcome;
    hide ItemFault;
    hide KeyFault;
    hide PlainKey;
    hide EqualsFollows;
    hide Reread;
    hide Ascending;
    hide EntryTokens;
    hide RereadEntries;
    var close := [SymbolToken("}")];
    NoEntries(before, entries, text, depth, close + more);
    if entries == [] {
      assert EntryTokens(entries, text, depth) + close + more == close + more;
      EntriesEnd(before, more);
    } else {
      var e, rest := entries[0], entries[1..];
      var tokens, f := EntryTokens(rest, text, depth), Entry(e.key, Reread(e.value, text, depth));
      var after := Comma(rest) + tokens + close + more;
      var value := Tokens(e.value, text, depth) + after;
      var at := Start(WordTokens(e.key, text) + [SymbolToken("=")] + value);
      FirstEntry(entries, text, depth, close + more);
      assert EntryTokens(entries, text, depth) + close + more == EntryTokens(entries, text, depth) + (close + more);
      assert after == Comma(rest) + tokens + (close + more);
      if e.key == "" {
        NoEquals(e, text, depth, after);
      }
      KeyIsRead(e.key, text, value);
      WhatIsRead(e.value, text, depth, after);
      ItemOutcome(e.value, text, depth, after);
      if KeyFault(e.key, text) == NoFault && ItemFault(e.value, text) == NoFault {
        NoEntries([], rest, text, depth, more);
        ItemEnds(rest, "}", tokens, more);
        KeyIsLast(before, entries, f.value);
        SetLast(before, e.key, f.value);
        FirstReread(before, entries, text, depth);
        EntryStep(at, "", at, e.key, Start(value), f.value, Start(after), Start(tokens + close + more), before);
        EntriesAreParsed(before + [f], rest, text, depth, more);
      } else if KeyFault(e.key, text) != NoFault {
        EntryStops(at, before, KeyFault(e.key, text).error);
      } else {
        EntryStops(at, before, ItemFault(e.value, text).error);
      }
    }
  }

  /** The first key comes behind the ones before it, and whatever its value, the rest behind it. */
  lemma KeyIsLast(before: seq<Entry>, entries: seq<Entry>, value: Any)
    requires entries != [] && Ascending(before + entries)
    ensures before == [] || Less(before[|before| - 1].key, entries[0].key)
    ensures Ascending(before + [Entry(entries[0].key, value)] + entries[1..])
  {
    var all, changed := before + entries, before + [Entry(entries[0].key, value)] + entries[1..];
    assert before != [] ==> all[|before| - 1] == before[|before| - 1] && all[|before|] == entries[0];
    assert forall i :: 0 <= i < |all| ==> changed[i].key == all[i].key;
    assert |changed| == |all|;
  }

  // ---------- conclusions ----------

  /** A key is at fault exactly when it is not one symbol. */
  lemma KeyFaultExactly(key: string, text: Syntax)
    requires key == "" || PlainKey(key, text)
    ensures KeyFault(key, text) == NoFault <==> OneSymbol(key, text)
  {
    if key != "" && |text.lex(key)| == 1 {
      assert text.lex(key) == [text.lex(key)[0]];
    }
  }

  /** There is no fault exactly in readable values. */
  lemma {:induction false} FaultExactly(v: Any, text: Syntax)
    requires Printable(v, text)
    ensures !Quoted(v) && FaultIn(v, text) == NoFault <==> Readable(v, text)
    decreases v, 1
  {
    if !Quoted(v) {
      match v
      case Table(_, _, entries) => EntriesFaultExactly(entries, text);
      case Array(_, _, elements) => ElementsFaultExactly(elements, text);
      case _ =>
    }
  }

  lemma {:induction false} ElementsFaultExactly(elements: seq<Any>, text: Syntax)
    requires forall i :: 0 <= i < |elements| ==> Printable(elements[i], text)
    ensures ElementsFault(elements, text) == NoFault <==> forall i :: 0 <= i < |elements| ==>
              Readable(elements[i], text)
    decreases elements, 0
  {
    hide Printable;
    hide Readable;
    if elements != [] {
      var rest := elements[1..];
      FaultExactly(elements[0], text);
      ElementsFaultExactly(rest, text);
      assert forall i :: 0 < i < |elements| ==> elements[i] == rest[i - 1];
    }
  }

  lemma {:induction false} EntriesFaultExactly(entries: seq<Entry>, text: Syntax)
    requires forall i :: 0 <= i < |entries| ==> PlainEntry(entries[i], text) && Printable(entries[i].value, text)
    ensures EntriesFault(entries, text) == NoFault
       <==> forall i :: 0 <= i < |entries| ==> OneSymbol(entries[i].key, text) && Readable(entries[i].value, text)
    decreases entries, 0
  {
    hide Printable;
    hide Readable;
    hide OneSymbol;
    hide PlainKey;
    hide KeyFault;
    if entries != [] {
      var rest := entries[1..];
      KeyFaultExactly(entries[0].key, text);
      FaultExactly(entries[0].value, text);
      EntriesFaultExactly(rest, text);
      assert forall i :: 0 < i < |entries| ==> entries[i] == rest[i - 1];
    }
  }

  /** A comment is read as it was exactly if it is trimmed and survives being written and scanned. */
  lemma CommentExactly(comment: string, text: Syntax, depth: nat)
    requires OneComment(comment)
    ensures RereadComment(comment, text, depth) == comment <==> ProperComment(comment, text, depth)
  {
    var indent := IndentSpaces(depth);
    var found := FoundComment(comment, text.windows, indent);
    if comment == "" {
      assert TrimWhitespace("") == "";
    } else {
      OneCommentIsScanned(comment, text.windows, indent, "");
      assert CommentText(comment, text.windows, indent) + "" == CommentText(comment, text.windows, indent);
      CommentIsScanned(comment, text.windows, indent, "");
      hide CommentSurvives;
      hide FoundComment;
      hide CommentText;
      if TrimWhitespace(found) == comment {
        TrimmedOnce(found);
        TrimmedFrom(found);
        TrimmedExactly(comment);
        var r := FoundPadded(comment, text.windows, indent);
        TrimmedExactly(r);
        TrimPadded(r);
      } else if TrimWhitespace(comment) == comment {
        TrimPadded(comment);
      }
    }
  }

  lemma TrimmedFrom(s: string)
    ensures forall x :: x in TrimWhitespace(s) ==> x in s
  {
    EndTrimmed(TrimStart(s));
    StartWithin(s);
  }

  lemma {:induction false} StartWithin(s: string)
    ensures forall x :: x in TrimStart(s) ==> x in s
  {
    if s != "" && IsWhiteSpace(s[0]) {
      StartWithin(s[1..]);
    }
  }

  /** A readable value has the comments it is read with exactly if all of them are such. */
  lemma {:induction false} RereadExactly(v: Any, text: Syntax, depth: nat)
    requires Printable(v, text) && Readable(v, text)
    ensures Reread(v, text, depth) == v <==> ProperComments(v, text, depth)
    decreases v, 1
  {
    CommentExactly(v.comment, text, depth);
    hide RereadComment;
    hide ProperComment;
    match v
    case Table(_, _, entries) => RereadEntriesExactly(entries, text, depth + 1);
    case Array(_, _, elements) => RereadElementsExactly(elements, text, depth + 1);
    case _ =>
  }

  lemma {:induction false} RereadElementsExactly(elements: seq<Any>, text: Syntax, depth: nat)
    requires forall i :: 0 <= i < |elements| ==> Printable(elements[i], text) && Readable(elements[i], text)
    ensures RereadElements(elements, text, depth) == elements
       <==> forall i :: 0 <= i < |elements| ==> ProperComments(elements[i], text, depth)
    decreases elements, 0
  {
    hide Printable;
    hide Readable;
    hide Reread;
    hide ProperComments;
    if elements != [] {
      var rest := elements[1..];
      RereadExactly(elements[0], text, depth);
      RereadElementsExactly(rest, text, depth);
      assert forall i :: 0 < i < |elements| ==> elements[i] == rest[i - 1];
      var w, more := Reread(elements[0], text, depth), RereadElements(rest, text, depth);
      assert elements == [elements[0]] + rest && ([w] + more)[0] == w && ([w] + more)[1..] == more;
    }
  }

  lemma {:induction false} RereadEntriesExactly(entries: seq<Entry>, text: Syntax, depth: nat)
    requires forall i :: 0 <= i < |entries| ==> Printable(entries[i].value, text) && Readable(entries[i].value, text)
    ensures RereadEntries(entries, text, depth) == entries
       <==> forall i :: 0 <= i < |entries| ==> ProperComments(entries[i].value, text, depth)
    decreases entries, 0
  {
    hide Printable;
    hide Readable;
    hide Reread;
    hide ProperComments;
    if entries != [] {
      var rest := entries[1..];
      RereadExactly(entries[0].value, text, depth);
      RereadEntriesExactly(rest, text, depth);
      assert forall i :: 0 < i < |entries| ==> entries[i] == rest[i - 1];
      var f, more := Entry(entries[0].key, Reread(entries[0].value, text, depth)), RereadEntries(rest, text, depth);
      assert entries == [entries[0]] + rest && ([f] + more)[0] == f && ([f] + more)[1..] == more;
    }
  }

  /** A printable value is read back, whatever follows, if and only if no table name in it needs quotes, every key is
      one symbol, and every comment is trimmed and survives at its depth. */
  lemma ReadBackExactly(v: Any, text: Syntax, depth: nat, more: seq<Token>)
    requires Printable(v, text)
    ensures Parse(Start(Tokens(v, text, depth) + more)) == Ok((v, Start(more)))
       <==> Readable(v, text) && ProperComments(v, text, depth)
  {
    WhatIsRead(v, text, depth, more);
    FaultExactly(v, text);
    hide Tokens;
    hide Parse;
    hide Printable;
    hide Readable;
    hide Reread;
    hide ProperComments;
    hide FaultIn;
    if Readable(v, text) {
      RereadExactly(v, text, depth);
    }
  }

  lemma RoundTrip(v: Any, text: Syntax, depth: nat, more: seq<Token>)
    requires Printable(v, text) && Readable(v, text) && ProperComments(v, text, depth)
    ensures Parse(Start(Tokens(v, text, depth) + more)) == Ok((v, Start(more)))
  {
    ReadBackExactly(v, text, depth, more);
  }

  /** Different values print differently. */
  lemma PrintingIsInjective(v: Any, w: Any, text: Syntax, depth: nat)
    requires Printable(v, text) && Readable(v, text) && ProperComments(v, text, depth)
    requires Printable(w, text) && Readable(w, text) && ProperComments(w, text, depth)
    requires Tokens(v, text, depth) == Tokens(w, text, depth)
    ensures v == w
  {
    RoundTrip(v, text, depth, []);
    RoundTrip(w, text, depth, []);
  }

  // ---------- values that are not read back ----------

  /** A table called "a b" comes back as that string; in an array it makes reading fail. */
  lemma QuotedNameIsLost(text: Syntax, depth: nat, more: seq<Token>)
    ensures var v := Table("", "a b", []);
      && Parse(Start(Tokens(v, text, depth) + more))
           == Ok((String("", "a b"), Input(SymbolToken("{"), [SymbolToken("}")] + more)))
      && Parse(Start(Tokens(Array("", "", [v]), text, depth) + more)) == Failure(ExpectedCommaOrClose)
  {
    var v := Table("", "a b", []);
    var outer := Array("", "", [v]);
    assert IllegalFrom("a b", 0) by {
      assert IllegalFrom("a b", 1);
    }
    assert OneComment("");
    assert Quoted(v) && Printable(v, text);
    assert ItemFault(v, text) == Fault(ExpectedCommaOrClose);
    assert [v][0] == v && ElementsFault([v], text) == Fault(ExpectedCommaOrClose);
    WhatIsRead(v, text, depth, more);
    WhatIsRead(outer, text, depth, more);
    assert QuotedRest(v, text, depth, more) == [SymbolToken("}")] + more;
  }

  /** A comment of two lines comes back as it was if the value is on its own and lines do not end as on Windows; within
      an array its second line comes back indented. */
  lemma TwoLinesNested(text: Syntax, more: seq<Token>)
    ensures var v, outer := None("a\nb"), Array("", "", [None("a\nb")]);
      && (Parse(Start(Tokens(v, text, 0) + more)) == Ok((v, Start(more))) <==> !text.windows)
      && Parse(Start(Tokens(outer, text, 0) + more)) != Ok((outer, Start(more)))
    ensures !text.windows ==>
              Parse(Start(Tokens(Array("", "", [None("a\nb")]), text, 0) + more))
                == Ok((Array("", "", [None("a\n    b")]), Start(more)))
  {
    hide *;
    TwoLinesPrinted(text);
    ReadBackExactly(None("a\nb"), text, 0, more);
    ReadBackExactly(Array("", "", [None("a\nb")]), text, 0, more);
    WhatIsRead(Array("", "", [None("a\nb")]), text, 0, more);
    TwoLinesReread(text, more);
  }

  lemma TwoLinesReread(text: Syntax, more: seq<Token>)
    ensures !text.windows ==>
              Outcome(Array("", "", [None("a\nb")]), text, 0, more)
                == Ok((Array("", "", [None("a\n    b")]), Start(more)))
  {
    hide FoundComment;
    hide TrimWhitespace;
    hide Start;
    if !text.windows {
      var elements, c := [None("a\nb")], "a\n    b";
      SecondLineFound();
      assert " a\n    b " == " " + c + " ";
      TrimmedExactly(c);
      TrimPadded(c);
      assert IndentSpaces(1) == 4 && RereadComment("a\nb", text, 1) == c;
      assert elements[0] == None("a\nb") && elements[1..] == [] && RereadElements(elements, text, 1) == [None(c)];
      assert ElementsFault(elements, text) == NoFault;
    }
  }

  lemma TwoLinesPrinted(text: Syntax)
    ensures var v := None("a\nb");
      var outer := Array("", "", [v]);
      && Printable(v, text) && Readable(v, text) && Printable(outer, text) && Readable(outer, text)
      && (ProperComments(v, text, 0) <==> !text.windows) && !ProperComments(outer, text, 0)
  {
    var v := None("a\nb");
    var outer := Array("", "", [v]);
    assert v.comment[1] == '\n' && TrimWhitespace("a\nb") == "a\nb" && UpToNull("a\nb") == "a\nb";
    assert OneComment("") && OneComment("a\nb");
    assert [v][0] == v && !ProperComments(v, text, 1);
  }

  /** A key of two words: the second is not the equals sign that is expected. A key that looks like a number is none. */
  lemma KeyIsLost(key: string, value: Any, text: Syntax, depth: nat, more: seq<Token>)
    requires || (key == "a b" && text.lex(key) == [SymbolToken("a"), SymbolToken("b")])
             || (key == "12" && text.lex(key) == [NumberToken("12", 12.0)])
    requires Printable(value, text)
    ensures Parse(Start(Tokens(Table("", "", [Entry(key, value)]), text, depth) + more))
         == Failure(if key == "12" then ExpectedName else ExpectedEquals)
  {
    var v := Table("", "", [Entry(key, value)]);
    assert OneComment("");
    assert Printable(v, text);
    assert EntriesFault(v.entries, text) == KeyFault(key, text);
    WhatIsRead(v, text, depth, more);
  }

  lemma NoneEntry(key: string, rest: seq<Entry>, text: Syntax, depth: nat)
    ensures EntryTokens([Entry(key, None(""))] + rest, text, depth)
         == WordTokens(key, text) + [SymbolToken("="), SymbolToken("NONE")] + Comma(rest)
           + EntryTokens(rest, text, depth)
  {
    hide WordTokens;
    hide FoundComment;
    hide Comma;
    var all := [Entry(key, None(""))] + rest;
    assert all[0] == Entry(key, None("")) && all[1..] == rest;
    assert Tokens(None(""), text, depth) == [SymbolToken("NONE")];
  }

  lemma UnnamedTable(entries: seq<Entry>, text: Syntax, depth: nat)
    ensures Tokens(Table("", "", entries), text, depth)
         == [SymbolToken("{")] + EntryTokens(entries, text, depth + 1) + [SymbolToken("}")]
  {
    hide EntryTokens;
  }

  /** A key that spells an entry of its own: two different tables print alike. */
  lemma KeysCollide(text: Syntax, depth: nat)
    requires text.lex("a") == [SymbolToken("a")] && text.lex("b") == [SymbolToken("b")]
    requires text.lex("a = NONE , b")
               == [SymbolToken("a"), SymbolToken("="), SymbolToken("NONE"), SymbolToken(","), SymbolToken("b")]
    ensures Tokens(Table("", "", [Entry("a = NONE , b", None(""))]), text, depth)
         == Tokens(Table("", "", [Entry("a", None("")), Entry("b", None(""))]), text, depth)
  {
    hide Tokens;
    hide EntryTokens;
    var one, a, b := [Entry("a = NONE , b", None(""))], [Entry("a", None(""))], [Entry("b", None(""))];
    UnnamedTable(one, text, depth);
    UnnamedTable(a + b, text, depth);
    NoneEntry("a = NONE , b", [], text, depth + 1);
    NoneEntry("a", b, text, depth + 1);
    NoneEntry("b", [], text, depth + 1);
    assert one + [] == one && b + [] == b && a + b == [Entry("a", None("")), Entry("b", None(""))];
  }
}

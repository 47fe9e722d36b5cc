/** The parser that moves along a token stream, and the printer that appends to one. */
module AnyStreams {
  import opened Results
  import opened AnyParser
  import opened AnyPrinter
  import opened AnyRoundTrip
  import opened AnyText
  import opened AnyTokens

  class TextInput {
    /** The token that the parsing methods share. */
    var token: Token
    var rest: seq<Token>

    function At(): Input
      reads this
    {
      Input(token, rest)
    }

    constructor (tokens: seq<Token>)
      ensures At() == Start(tokens)
    {
      var first := Start(tokens);
      token, rest := first.token, first.rest;
    }

    method Read()
      modifies this
      ensures At() == old(At()).Read()
    {
      if rest == [] {
        token := EndToken;
      } else {
        token, rest := rest[0], rest[1..];
      }
    }

    method ReadNextSignificant()
      requires !token.EndToken?
      modifies this
      ensures At() == ReadSignificant(old(At()))
    {
      Read();
      while token.CommentToken? || token.NewlineToken?
        invariant ReadSignificant(old(At())) ==
                    if token.CommentToken? || token.NewlineToken? then ReadSignificant(At()) else At()
        decreases At().Size()
      {
        Read();
      }
    }

    method DeserializeComment() returns (comment: string)
      modifies this
      ensures (comment, At()) == Comments(old(At()), "")
    {
      comment := "";
      while token.CommentToken?
        invariant Comments(old(At()), "") == Comments(At(), comment)
        decreases At().Size()
      {
        comment := comment + TrimWhitespace(token.text) + "\n";
        ghost var at, lines := At(), comment;
        Read();
        comment := comment + "\n";
        while token.NewlineToken?
          invariant At().Size() < at.Size()
          invariant CommentLines(at, lines) == if token.NewlineToken? then CommentLines(At(), comment)
                                               else (comment, At())
          decreases At().Size()
        {
          Read();
          comment := comment + "\n";
        }
      }
      comment := TrimWhitespace(comment);
    }

    method DeserializeName() returns (name: Parsed<string>)
      requires token.SymbolToken?
      modifies this
      ensures match ParseName(old(At()), "")
              case Failure(e) => name == Failure(e)
              case Ok((n, at)) => name == Ok(n) && At() == at
    {
      var s := "";
      while !IsOpen(token.First())
        invariant token.SymbolToken? && ParseName(old(At()), "") == ParseName(At(), s)
        decreases At().Size()
      {
        s := s + token.text;
        ReadNextSignificant();
        if !token.SymbolToken? {
          return Failure(ExpectedSymbol);
        }
      }
      name := Ok(s);
    }

    method ReadUntilCommaOrClose() returns (ok: bool)
      modifies this
      ensures match UntilCommaOrClose(old(At()))
              case Failure(_) => !ok
              case Ok(at) => ok && At() == at
    {
      while !(AtClose(token) || IsSeparator(token.First()))
        invariant UntilCommaOrClose(old(At())) == UntilCommaOrClose(At())
        decreases At().Size()
      {
        if !token.NewlineToken? && !token.CommentToken? {
          return false;
        }
        Read();
      }
      ok := true;
    }

    /** Reads one value and the token after it. */
    method Deserialize() returns (v: Parsed<Any>)
      modifies this
      ensures match Parse(old(At()))
              case Failure(e) => v == Failure(e)
              case Ok((a, at)) => v == Ok(a) && At() == at
      decreases At().Size(), 2
    {
      while token.NewlineToken?
        invariant SkipNewlines(old(At())) == SkipNewlines(At()) && At().Size() <= old(At().Size())
        decreases At().Size()
      {
        Read();
      }
      var comment := "";
      if token.CommentToken? {
        comment := DeserializeComment();
      }
      if token.EndToken? {
        return Failure(FileEnded);
      }
      v := DeserializeValue();
      if v.Ok? && comment != "" {
        v := Ok(v.value.(comment := comment));
      }
    }

    method DeserializeValue() returns (v: Parsed<Any>)
      requires !token.EndToken?
      modifies this
      ensures match ParseValue(old(At()))
              case Failure(e) => v == Failure(e)
              case Ok((a, at)) => v == Ok(a) && At() == at
      decreases At().Size(), 1
    {
      match token {
        case StringToken(s) =>
          v := Ok(String("", s));
        case NumberToken(_, n) =>
          v := Ok(Number("", n));
        case BooleanToken(_, b) =>
          v := Ok(Boolean("", b));
        case SymbolToken(s) =>
          if s == "#" {
            return Failure(PragmaFound);
          } else if ToUpper(s) == "NONE" {
            v := Ok(None(""));
          } else {
            var name := DeserializeName();
            if name.Failure? {
              return Failure(name.error);
            }
            // It moves past its closing token itself
            v := DeserializeBody(name.value);
            return;
          }
        case _ =>
          return Failure(UnexpectedToken);
      }
      // A simple value is one token
      Read();
    }

    /** From the opening symbol on, to the token after the closing one. */
    method DeserializeBody(name: string) returns (v: Parsed<Any>)
      requires token.SymbolToken? && IsOpen(token.First())
      modifies this
      ensures match ParseBody(name, old(At()))
              case Failure(e) => v == Failure(e)
              case Ok((a, at)) => v == Ok(a) && At() == at
      decreases At().Size(), 0
    {
      var closeSymbol := CloseOf(token.First());
      var isTable := token.First() == '{';
      var elements: seq<Any>, entries: seq<Entry> := [], [];
      Read();
      ghost var body := At();
      while !IsCloseSymbol(token, closeSymbol)
        invariant At().Size() <= body.Size()
        invariant isTable ==> ParseEntries(body, closeSymbol, []) == ParseEntries(At(), closeSymbol, entries)
        invariant !isTable ==> ParseElements(body, closeSymbol, []) == ParseElements(At(), closeSymbol, elements)
        decreases At().Size()
      {
        var comment := DeserializeComment();
        if IsCloseSymbol(token, closeSymbol) {
          break;
        }
        var key := "";
        if isTable {
          if !token.SymbolToken? && !token.StringToken? {
            return Failure(ExpectedName);
          }
          key := token.text;
          ReadNextSignificant();
          if !token.IsSymbol("=") {
            return Failure(ExpectedEquals);
          }
          Read();
        }
        var a := Deserialize();
        if a.Failure? {
          return a;
        }
        var item := WithLeading(a.value, comment);
        if isTable {
          entries := SetEntry(entries, key, item);
        } else {
          elements := elements + [item];
        }
        var ok := ReadUntilCommaOrClose();
        if !ok {
          return Failure(ExpectedCommaOrClose);
        }
        if IsSeparator(token.First()) {
          Read();
        }
      }
      Read();
      v := Ok(if isTable then Table("", name, entries) else Array("", name, elements));
    }
  }

  class TextOutput {
    var tokens: seq<Token>
    /** Within how many tables and arrays text is written. */
    var indentLevel: nat

    constructor ()
      ensures tokens == [] && indentLevel == 0
    {
      tokens, indentLevel := [], 0;
    }

    method PushIndent()
      modifies this`indentLevel
      ensures indentLevel == old(indentLevel) + 1
    {
      indentLevel := indentLevel + 1;
    }

    method PopIndent()
      requires indentLevel > 0
      modifies this`indentLevel
      ensures indentLevel == old(indentLevel) - 1
    {
      indentLevel := indentLevel - 1;
    }

    method WriteSymbol(s: string)
      modifies this`tokens
      ensures tokens == old(tokens) + [SymbolToken(s)]
    {
      tokens := tokens + [SymbolToken(s)];
    }

    method Serialize(v: Any, text: Syntax)
      modifies this
      ensures tokens == old(tokens) + Tokens(v, text, indentLevel) && indentLevel == old(indentLevel)
      decreases v, 2
    {
      hide BareTokens;
      if v.comment != "" {
        tokens := tokens + [CommentToken(FoundComment(v.comment, text.windows, IndentSpaces(indentLevel)))];
      }
      SerializeBare(v, text);
    }

    method SerializeBare(v: Any, text: Syntax)
      modifies this
      ensures tokens == old(tokens) + BareTokens(v, text, indentLevel) && indentLevel == old(indentLevel)
      decreases v, 1
    {
      hide NameTokens;
      hide EntryTokens;
      hide ElementTokens;
      match v {
        case None(_) =>
          WriteSymbol("NONE");
        case Boolean(_, b) =>
          tokens := tokens + [BooleanToken(BooleanText(b), b)];
        case Number(_, n) =>
          tokens := tokens + [NumberToken(text.digits(n), n)];
        case String(_, s) =>
          tokens := tokens + [StringToken(s)];
        case Table(_, name, entries) =>
          tokens := tokens + NameTokens(name, true, text);
          WriteSymbol("{");
          PushIndent();
          WriteEntries(entries, text);
          PopIndent();
          WriteSymbol("}");
        case Array(_, name, elements) =>
          tokens := tokens + NameTokens(name, false, text);
          WriteSymbol("(");
          PushIndent();
          WriteElements(elements, text);
          PopIndent();
          WriteSymbol(")");
      }
    }

    method WriteElements(elements: seq<Any>, text: Syntax)
      modifies this
      ensures tokens == old(tokens) + ElementTokens(elements, text, indentLevel) && indentLevel == old(indentLevel)
      decreases elements, 0
    {
      hide Tokens;
      for i := 0 to |elements|
        invariant indentLevel == old(indentLevel)
        invariant tokens + ElementTokens(elements[i..], text, indentLevel)
               == old(tokens) + ElementTokens(elements, text, indentLevel)
      {
        ghost var before := tokens;
        var rest := elements[i..];
        Serialize(elements[i], text);
        assert rest[0] == elements[i] && rest[1..] == elements[i + 1..];
        if i < |elements| - 1 {
          WriteSymbol(",");
        }
        assert tokens == before + (Tokens(rest[0], text, indentLevel) + Comma(rest[1..]));
        assert tokens + ElementTokens(rest[1..], text, indentLevel) == before + ElementTokens(rest, text, indentLevel);
      }
    }

    method WriteEntries(entries: seq<Entry>, text: Syntax)
      modifies this
      ensures tokens == old(tokens) + EntryTokens(entries, text, indentLevel) && indentLevel == old(indentLevel)
      decreases entries, 0
    {
      hide Tokens;
      hide WordTokens;
      hide EntryTokens;
      ghost var start, depth := tokens, indentLevel;
      for i := 0 to |entries|
        invariant indentLevel == depth
        invariant tokens + EntryTokens(entries[i..], text, depth) == start + EntryTokens(entries, text, depth)
      {
        ghost var before := tokens;
        ghost var rest := entries[i..];
        tokens := tokens + WordTokens(entries[i].key, text);
        WriteSymbol("=");
        Serialize(entries[i].value, text);
        assert rest[0] == entries[i] && rest[1..] == entries[i + 1..];
        if i < |entries| - 1 {
          WriteSymbol(",");
        }
        EntriesStep(before, rest, text, depth);
      }
      assert entries[|entries|..] == [];
      EntriesStep(tokens, [], text, depth);
    }
  }

  lemma EntriesStep(before: seq<Token>, entries: seq<Entry>, text: Syntax, depth: nat)
    ensures before + EntryTokens(entries, text, depth) ==
            if entries == [] then before
            else
              before + WordTokens(entries[0].key, text) + [SymbolToken("=")] + Tokens(entries[0].value, text, depth)
              + Comma(entries[1..]) + EntryTokens(entries[1..], text, depth)
  {
    hide Tokens;
    hide WordTokens;
    hide Comma;
  }

  /** Printing and parsing with the streams themselves. */
  method PrintAndParse(v: Any, text: Syntax) returns (w: Parsed<Any>)
    requires Printable(v, text)
    ensures w == Ok(v) <==> Readable(v, text) && ProperComments(v, text, 0)
    ensures match Outcome(v, text, 0, [])
            case Failure(e) => w == Failure(e)
            case Ok((a, _)) => w == Ok(a)
  {
    var output := new TextOutput();
    output.Serialize(v, text);
    var input := new TextInput(output.tokens);
    WhatIsRead(v, text, 0, []);
    FaultExactly(v, text);
    if Readable(v, text) {
      RereadExactly(v, text, 0);
    }
    assert output.tokens == Tokens(v, text, 0) + [];
    w := input.Deserialize();
  }
}

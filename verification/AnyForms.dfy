/** What the parser makes of tables and arrays in any form it accepts, and not only in the one that is printed: any
    brackets, either separator, one more separator at the end, keys as strings, in any order and more than once. */
module AnyForms {
  import opened Results
  import opened AnyParser
  import opened AnyPrinter
  import opened AnyRoundTrip
  import opened AnyTables
  import opened AnyTokens

  /** The tokens are read as that value, whatever follows. */
  ghost predicate Reads(tokens: seq<Token>, v: Any) {
    forall more :: Parse(Start(tokens + more)) == Ok((v, Start(more)))
  }

  /** An element of an array: a comment may precede it, and comments and line ends may follow it before the
      separator, which every element but the last has. */
  datatype Element = Element(lead: string, tokens: seq<Token>, value: Any, gap: seq<Token>, separator: seq<Token>)

  /** An entry of a table, its key a string or a symbol; comments and line ends may follow the key. */
  datatype Setting = Setting(key: string, quoted: bool, gap: seq<Token>, element: Element) {
    function KeyToken(): Token {
      if quoted then StringToken(key) else SymbolToken(key)
    }
  }

  function LeadTokens(lead: string): seq<Token> {
    if lead == "" then [] else [CommentToken(lead)]
  }

  function OneElement(e: Element): seq<Token> {
    LeadTokens(e.lead) + (e.tokens + (e.gap + e.separator))
  }

  function AllElements(elements: seq<Element>): seq<Token> {
    if elements == [] then []
    else OneElement(elements[0]) + AllElements(elements[1..])
  }

  function OneSetting(s: Setting): seq<Token> {
    LeadTokens(s.element.lead)
    + ([s.KeyToken()] + (s.gap + ([SymbolToken("=")] + (s.element.tokens + (s.element.gap + s.element.separator)))))
  }

  function AllSettings(settings: seq<Setting>): seq<Token> {
    if settings == [] then []
    else OneSetting(settings[0]) + AllSettings(settings[1..])
  }

  predicate Skipped(tokens: seq<Token>) {
    forall i :: 0 <= i < |tokens| ==> tokens[i].CommentToken? || tokens[i].NewlineToken?
  }

  /** Whatever its kind, a token that starts with a comma or a semicolon separates. */
  predicate Separates(t: Token) {
    t.First() == ',' || t.First() == ';'
  }

  ghost predicate Proper(e: Element, last: bool) {
    && Skipped(e.gap) && (forall i :: 0 <= i < |e.gap| ==> !Separates(e.gap[i]))
    && Reads(e.tokens, e.value)
    && (if e.separator == [] then last else |e.separator| == 1 && Separates(e.separator[0]))
  }

  /** Starts with what an element may start with; the parser takes comments there for its own. */
  predicate Startable(tokens: seq<Token>, close: char) {
    && tokens != [] && !tokens[0].CommentToken? && !tokens[0].NewlineToken? && !IsCloseSymbol(tokens[0], close)
  }

  ghost predicate ProperElements(elements: seq<Element>, close: char) {
    forall i :: 0 <= i < |elements| ==>
      Proper(elements[i], i == |elements| - 1) && Startable(elements[i].tokens, close)
  }

  predicate KeyLike(s: Setting) {
    s.quoted || s.key == "" || s.key[0] != '}'
  }

  ghost predicate ProperSettings(settings: seq<Setting>) {
    forall i :: 0 <= i < |settings| ==>
      && Proper(settings[i].element, i == |settings| - 1)
      && KeyLike(settings[i]) && Skipped(settings[i].gap)
  }

  /** The value of an element with the comment before it put in front of its own. */
  function Led(e: Element): Any {
    var c := TrimWhitespace(e.lead);
    if c == "" then e.value else e.value.(comment := TrimWhitespace(c + "\n" + e.value.comment))
  }

  // ---------- single tokens ----------

  lemma OneTokenIsRead(t: Token, v: Any, more: seq<Token>)
    requires match t
             case StringToken(s) => v == String("", s)
             case NumberToken(_, n) => v == Number("", n)
             case BooleanToken(_, b) => v == Boolean("", b)
             case SymbolToken(s) => v == None("") && s != "#" && ToUpper(s) == "NONE"
             case _ => false
    ensures Parse(Start([t] + more)) == Ok((v, Start(more)))
  {
    hide ToUpper;
    ReadNext(t, more);
    assert SkipNewlines(Input(t, more)) == Input(t, more);
  }

  lemma StringIsRead(s: string)
    ensures Reads([StringToken(s)], String("", s))
  {
    hide Parse;
    hide Start;
    forall more {
      OneTokenIsRead(StringToken(s), String("", s), more);
    }
  }

  lemma NumberIsRead(digits: string, n: real)
    ensures Reads([NumberToken(digits, n)], Number("", n))
  {
    hide Parse;
    hide Start;
    forall more {
      OneTokenIsRead(NumberToken(digits, n), Number("", n), more);
    }
  }

  lemma BooleanIsRead(word: string, b: bool)
    ensures Reads([BooleanToken(word, b)], Boolean("", b))
  {
    hide Parse;
    hide Start;
    forall more {
      OneTokenIsRead(BooleanToken(word, b), Boolean("", b), more);
    }
  }

  lemma NoneIsRead(word: string)
    requires word != "#" && ToUpper(word) == "NONE"
    ensures Reads([SymbolToken(word)], None(""))
  {
    hide Parse;
    hide Start;
    hide ToUpper;
    forall more {
      OneTokenIsRead(SymbolToken(word), None(""), more);
    }
  }

  // ---------- around a value ----------

  lemma {:induction false} AfterValue(gap: seq<Token>, separator: seq<Token>, next: seq<Token>)
    requires Skipped(gap) && forall i :: 0 <= i < |gap| ==> !Separates(gap[i])
    requires if separator == [] then AtClose(Start(next).token) else |separator| == 1 && Separates(separator[0])
    ensures AfterItem(Start(gap + separator + next)) == Ok(Start(next))
    decreases |gap|
  {
    if gap == [] {
      assert gap + separator + next == separator + next;
      if separator == [] {
        assert separator + next == next;
      } else {
        ReadNext(separator[0], next);
        assert separator == [separator[0]];
      }
    } else {
      var rest := gap[1..] + separator + next;
      assert gap + separator + next == [gap[0]] + rest;
      ReadNext(gap[0], rest);
      AfterValue(gap[1..], separator, next);
      assert UntilCommaOrClose(Input(gap[0], rest)) == UntilCommaOrClose(Start(rest));
    }
  }

  /** A comment, if there is one, before a token of another kind. */
  lemma LeadIsRead(lead: string, more: seq<Token>)
    requires !Start(more).token.CommentToken? && !Start(more).token.NewlineToken?
    ensures Comments(Start(LeadTokens(lead) + more), "") == (TrimWhitespace(lead), Start(more))
    ensures Start(LeadTokens(lead) + more).token == if lead == "" then Start(more).token else CommentToken(lead)
  {
    if lead == "" {
      assert LeadTokens(lead) + more == more;
      NoComment(Start(more));
      assert TrimWhitespace("") == "";
    } else {
      CommentIsRead(lead, more);
      ReadNext(CommentToken(lead), more);
    }
  }

  lemma LedIs(e: Element)
    ensures WithLeading(e.value, TrimWhitespace(e.lead)) == Led(e)
  {
  }

  /** Comments and line ends between a key and the equals sign. */
  lemma {:induction false} EqualsIsFound(t: Token, gap: seq<Token>, more: seq<Token>)
    requires Skipped(gap) && !t.EndToken?
    ensures ReadSignificant(Input(t, gap + [SymbolToken("=")] + more)) == Input(SymbolToken("="), more)
    decreases |gap|
  {
    var tokens := gap + [SymbolToken("=")] + more;
    if gap == [] {
      assert tokens == [SymbolToken("=")] + more;
    } else {
      EqualsIsFound(gap[0], gap[1..], more);
      assert tokens[1..] == gap[1..] + [SymbolToken("=")] + more;
    }
  }

  lemma KeyIsFound(s: Setting, more: seq<Token>)
    requires KeyLike(s) && Skipped(s.gap)
    ensures var tokens := [s.KeyToken()] + (s.gap + ([SymbolToken("=")] + more));
      && ParseKey(Start(tokens)) == Ok((s.key, Start(more)))
      && !IsCloseSymbol(Start(tokens).token, '}') && Start(tokens).token == s.KeyToken()
  {
    var rest := s.gap + ([SymbolToken("=")] + more);
    ReadNext(s.KeyToken(), rest);
    EqualsIsFound(s.KeyToken(), s.gap, more);
    assert rest == s.gap + [SymbolToken("=")] + more;
    ReadNext(SymbolToken("="), more);
  }

  // ---------- arrays ----------

  function Values(elements: seq<Element>): seq<Any> {
    seq(|elements|, i requires 0 <= i < |elements| => Led(elements[i]))
  }

  /** The tokens of a body from an element on, its closing symbol, and what follows it. */
  function Behind(tail: string, close: char, more: seq<Token>): seq<Token> {
    LeadTokens(tail) + ([SymbolToken([close])] + more)
  }

  /** A comment may end a body, unless it would belong to the last element. */
  predicate Ended(elements: seq<Element>, tail: string) {
    tail == "" || elements == [] || elements[|elements| - 1].separator != []
  }

  lemma EndIsRead(tail: string, close: char, more: seq<Token>)
    requires IsClose(close)
    ensures var at, end := Start(Behind(tail, close, more)), Start([SymbolToken([close])] + more);
      && Comments(at, "") == (TrimWhitespace(tail), end) && (at == end || !IsCloseSymbol(at.token, close))
      && IsCloseSymbol(end.token, close) && end.Read() == Start(more)
      && (tail == "" ==> AtClose(at.token))
  {
    hide TrimWhitespace;
    hide Comments;
    ReadNext(SymbolToken([close]), more);
    LeadIsRead(tail, [SymbolToken([close])] + more);
    if tail == "" {
      assert Behind(tail, close, more) == [SymbolToken([close])] + more;
    }
  }

  lemma NoMoreElements(before: seq<Any>, tail: string, close: char, more: seq<Token>)
    requires IsClose(close)
    ensures ParseElements(Start(Behind(tail, close, more)), close, before) == Ok((before, Start(more)))
  {
    EndIsRead(tail, close, more);
    hide Comments;
    hide IsCloseSymbol;
    hide Behind;
    hide Start;
  }

  lemma NoMoreEntries(before: seq<Entry>, tail: string, more: seq<Token>)
    ensures ParseEntries(Start(Behind(tail, '}', more)), '}', before) == Ok((before, Start(more)))
  {
    EndIsRead(tail, '}', more);
    hide Comments;
    hide IsCloseSymbol;
    hide Behind;
    hide Start;
  }

  lemma StartableStarts(tokens: seq<Token>, close: char, more: seq<Token>)
    requires Startable(tokens, close)
    ensures var t := Start(tokens + more).token;
      !t.CommentToken? && !t.NewlineToken? && !IsCloseSymbol(t, close)
  {
    StartOf(tokens, more);
  }

  lemma CommentIsNoClose(lead: string, close: char)
    ensures !IsCloseSymbol(CommentToken(lead), close)
  {
  }

  lemma ElementIsTaken(before: seq<Any>, e: Element, close: char, next: seq<Token>)
    requires Proper(e, AtClose(Start(next).token)) && Startable(e.tokens, close)
    ensures ParseElements(Start(OneElement(e) + next), close, before)
         == ParseElements(Start(next), close, before + [Led(e)])
  {
    hide *;
    var after := e.gap + e.separator + next;
    ElementSplit(e, next);
    StartableStarts(e.tokens, close, after);
    LeadIsRead(e.lead, e.tokens + after);
    CommentIsNoClose(e.lead, close);
    ProperEnds(e, next);
    LedIs(e);
    ElementStep(Start(LeadTokens(e.lead) + (e.tokens + after)), close, TrimWhitespace(e.lead), Start(e.tokens + after),
                e.value, Start(after), Start(next), before);
  }

  lemma ElementSplit(e: Element, next: seq<Token>)
    ensures OneElement(e) + next == LeadTokens(e.lead) + (e.tokens + (e.gap + e.separator + next))
  {
    hide LeadTokens;
  }

  lemma ProperEnds(e: Element, next: seq<Token>)
    requires Proper(e, AtClose(Start(next).token))
    ensures var after := e.gap + e.separator + next;
      Parse(Start(e.tokens + after)) == Ok((e.value, Start(after))) && AfterItem(Start(after)) == Ok(Start(next))
  {
    hide Parse;
    hide AfterItem;
    hide Start;
    hide AtClose;
    hide Separates;
    hide Skipped;
    AfterValue(e.gap, e.separator, next);
  }

  lemma {:induction false} ElementsAreRead(before: seq<Any>, elements: seq<Element>, tail: string, close: char,
                                           more: seq<Token>)
    requires IsClose(close) && ProperElements(elements, close) && Ended(elements, tail)
    ensures ParseElements(Start(AllElements(elements) + Behind(tail, close, more)), close, before)
         == Ok((before + Values(elements), Start(more)))
    decreases |elements|
  {
    hide ParseElements;
    hide OneElement;
    hide Behind;
    hide Proper;
    hide Startable;
    hide Start;
    hide Led;
    hide AtClose;
    var end := Behind(tail, close, more);
    if elements == [] {
      assert AllElements(elements) + end == end;
      assert before + Values(elements) == before;
      NoMoreElements(before, tail, close, more);
    } else {
      var e, rest := elements[0], elements[1..];
      var next := AllElements(rest) + end;
      assert AllElements(elements) + end == OneElement(e) + next;
      assert forall i :: 0 <= i < |rest| ==> rest[i] == elements[i + 1];
      if rest == [] {
        assert next == end;
        LastIsProper(e, tail, close, more);
      } else {
        NotLast(e, AtClose(Start(next).token));
      }
      ElementIsTaken(before, e, close, next);
      ElementsAreRead(before + [Led(e)], rest, tail, close, more);
      assert before + [Led(e)] + Values(rest) == before + Values(elements);
    }
  }

  lemma LastIsProper(e: Element, tail: string, close: char, more: seq<Token>)
    requires IsClose(close) && Proper(e, true) && (tail == "" || e.separator != [])
    ensures Proper(e, AtClose(Start(Behind(tail, close, more)).token))
  {
    EndIsRead(tail, close, more);
    hide Reads;
    hide Comments;
    hide Start;
    hide AtClose;
    hide Behind;
  }

  lemma NotLast(e: Element, last: bool)
    requires Proper(e, false)
    ensures Proper(e, last)
  {
    hide Reads;
  }

  // ---------- tables ----------

  function Assign(before: seq<Entry>, settings: seq<Setting>): seq<Entry>
    decreases |settings|
  {
    if settings == [] then before
    else Assign(SetEntry(before, settings[0].key, Led(settings[0].element)), settings[1..])
  }

  /** The setting at i gives the entry, and no later one has its key. */
  predicate LastSets(settings: seq<Setting>, i: nat, e: Entry)
    requires i < |settings|
  {
    && e == Entry(settings[i].key, Led(settings[i].element))
    && forall j :: i < j < |settings| ==> settings[j].key != e.key
  }

  /** The table holds the last value of each key, and nothing else, in the order of the keys. */
  ghost predicate HoldsLast(entries: seq<Entry>, settings: seq<Setting>) {
    Ascending(entries) && forall e :: e in entries <==> exists i :: 0 <= i < |settings| && LastSets(settings, i, e)
  }

  lemma FirstSets(settings: seq<Setting>, e: Entry)
    requires settings != []
    ensures var s, rest := settings[0], settings[1..];
      (exists i :: 0 <= i < |settings| && LastSets(settings, i, e))
      <==> (exists i :: 0 <= i < |rest| && LastSets(rest, i, e))
           || (e == Entry(s.key, Led(s.element)) && NotSet(rest, e.key))
  {
    hide Led;
    var s, rest := settings[0], settings[1..];
    assert forall j :: 0 <= j < |rest| ==> rest[j] == settings[j + 1];
    if i :| 0 <= i < |settings| && LastSets(settings, i, e) {
      if i > 0 {
        assert LastSets(rest, i - 1, e);
      }
    }
    if i :| 0 <= i < |rest| && LastSets(rest, i, e) {
      assert LastSets(settings, i + 1, e);
    } else if e == Entry(s.key, Led(s.element)) && NotSet(rest, e.key) {
      assert LastSets(settings, 0, e);
    }
  }

  predicate NotSet(settings: seq<Setting>, key: string) {
    forall j :: 0 <= j < |settings| ==> settings[j].key != key
  }

  lemma {:induction false} AssignExactly(before: seq<Entry>, settings: seq<Setting>)
    requires Ascending(before)
    ensures var r := Assign(before, settings);
      && Ascending(r)
      && forall e :: e in r <==> (exists i :: 0 <= i < |settings| && LastSets(settings, i, e))
                                 || (e in before && NotSet(settings, e.key))
    decreases |settings|
  {
    hide Led;
    hide SetEntry;
    hide Ascending;
    hide LastSets;
    if settings != [] {
      var s, rest, value := settings[0], settings[1..], Led(settings[0].element);
      SetEntryExactly(before, s.key, value);
      AssignExactly(SetEntry(before, s.key, value), rest);
      forall e: Entry
        ensures NotSet(settings, e.key) <==> e.key != s.key && NotSet(rest, e.key)
      {
        assert forall j :: 0 <= j < |rest| ==> rest[j] == settings[j + 1];
        assert settings == [s] + rest;
      }
      forall e {
        FirstSets(settings, e);
      }
    }
  }

  lemma SettingSplit(s: Setting, next: seq<Token>)
    ensures var e := s.element;
      OneSetting(s) + next
        == LeadTokens(e.lead)
          + ([s.KeyToken()] + (s.gap + ([SymbolToken("=")] + (e.tokens + (e.gap + e.separator + next)))))
  {
    hide LeadTokens;
    var e := s.element;
    var value := e.tokens + (e.gap + e.separator + next);
    assert e.tokens + (e.gap + e.separator) + next == value;
    assert s.gap + ([SymbolToken("=")] + (e.tokens + (e.gap + e.separator))) + next
             == s.gap + ([SymbolToken("=")] + value);
  }

  lemma SettingIsTaken(before: seq<Entry>, s: Setting, next: seq<Token>)
    requires Proper(s.element, AtClose(Start(next).token)) && KeyLike(s) && Skipped(s.gap)
    ensures ParseEntries(Start(OneSetting(s) + next), '}', before)
         == ParseEntries(Start(next), '}', SetEntry(before, s.key, Led(s.element)))
  {
    hide *;
    var e := s.element;
    var after := e.gap + e.separator + next;
    var value := e.tokens + after;
    var name := [s.KeyToken()] + (s.gap + ([SymbolToken("=")] + value));
    SettingSplit(s, next);
    KeyIsFound(s, value);
    KeyIsNoComment(s);
    LeadIsRead(e.lead, name);
    CommentIsNoClose(e.lead, '}');
    ProperEnds(e, next);
    LedIs(e);
    EntryStep(Start(LeadTokens(e.lead) + name), TrimWhitespace(e.lead), Start(name), s.key, Start(value), e.value,
              Start(after), Start(next), before);
  }

  lemma KeyIsNoComment(s: Setting)
    ensures !s.KeyToken().CommentToken? && !s.KeyToken().NewlineToken?
  {
  }

  lemma {:induction false} SettingsAreRead(before: seq<Entry>, settings: seq<Setting>, tail: string, more: seq<Token>)
    requires ProperSettings(settings) && SettingsEnded(settings, tail)
    ensures ParseEntries(Start(AllSettings(settings) + Behind(tail, '}', more)), '}', before)
         == Ok((Assign(before, settings), Start(more)))
    decreases |settings|
  {
    hide ParseEntries;
    hide OneSetting;
    hide SetEntry;
    hide Behind;
    hide Proper;
    hide KeyLike;
    hide Skipped;
    hide Start;
    hide Led;
    hide AtClose;
    var end := Behind(tail, '}', more);
    if settings == [] {
      assert AllSettings(settings) + end == end;
      NoMoreEntries(before, tail, more);
    } else {
      var s, rest := settings[0], settings[1..];
      var next := AllSettings(rest) + end;
      assert AllSettings(settings) + end == OneSetting(s) + next;
      assert forall i :: 0 <= i < |rest| ==> rest[i] == settings[i + 1];
      if rest == [] {
        assert next == end;
        LastIsProper(s.element, tail, '}', more);
      } else {
        NotLast(s.element, AtClose(Start(next).token));
      }
      SettingIsTaken(before, s, next);
      SettingsAreRead(SetEntry(before, s.key, Led(s.element)), rest, tail, more);
    }
  }

  predicate SettingsEnded(settings: seq<Setting>, tail: string) {
    tail == "" || settings == [] || settings[|settings| - 1].element.separator != []
  }

  // ---------- whole tables and arrays ----------

  /** A name in pieces, none of which looks like something else. */
  predicate NamePieces(pieces: seq<string>) {
    && (pieces != [] ==> pieces[0] != "#" && ToUpper(pieces[0]) != "NONE")
    && forall i :: 0 <= i < |pieces| ==> pieces[i] == "" || !IsOpen(pieces[i][0])
  }

  function ArrayForm(pieces: seq<string>, open: char, elements: seq<Element>, tail: string, close: char): seq<Token> {
    Symbols(pieces) + ([SymbolToken([open])] + (AllElements(elements) + (LeadTokens(tail) + [SymbolToken([close])])))
  }

  function TableForm(pieces: seq<string>, settings: seq<Setting>, tail: string): seq<Token> {
    Symbols(pieces) + ([SymbolToken("{")] + (AllSettings(settings) + (LeadTokens(tail) + [SymbolToken("}")])))
  }

  lemma NameOpens(pieces: seq<string>, open: char, body: seq<Token>)
    requires NamePieces(pieces) && IsOpen(open)
    ensures var at := Start(Symbols(pieces) + [SymbolToken([open])] + body);
      && at.token.SymbolToken? && at.token.text != "#" && ToUpper(at.token.text) != "NONE"
      && ParseName(at, "") == Ok((Concat(pieces), Input(SymbolToken([open]), body)))
  {
    NameIsRead(pieces, "", [open], body);
    hide ParseName;
    assert "" + Concat(pieces) == Concat(pieces);
    if pieces == [] {
      assert Symbols(pieces) + [SymbolToken([open])] + body == [SymbolToken([open])] + body;
      assert ToUpper([open]) == [open];
    }
  }

  lemma BodyOpens(at: Input, name: string, open: char, body: seq<Token>)
    requires at.token.SymbolToken? && at.token.text != "#" && ToUpper(at.token.text) != "NONE"
    requires ParseName(at, "") == Ok((name, Input(SymbolToken([open]), body)))
    ensures Parse(at) ==
              if open == '{' then TableOf(name, ParseEntries(Start(body), '}', []))
              else ArrayOf(name, ParseElements(Start(body), if open == '(' then ')' else ']', []))
  {
    ParsePlain(at);
    ReadNext(SymbolToken([open]), body);
    hide Parse;
    hide ParseName;
    hide ParseEntries;
    hide ParseElements;
    hide ToUpper;
    hide Start;
  }

  /** An array in parentheses or in brackets. */
  lemma ArrayIsRead(pieces: seq<string>, open: char, elements: seq<Element>, tail: string)
    requires NamePieces(pieces) && (open == '(' || open == '[')
    requires ProperElements(elements, if open == '(' then ')' else ']') && Ended(elements, tail)
    ensures Reads(ArrayForm(pieces, open, elements, tail, if open == '(' then ')' else ']'),
                  Array("", Concat(pieces), Values(elements)))
  {
    hide ParseName;
    hide Parse;
    hide ParseElements;
    hide ParseEntries;
    hide Start;
    hide ProperElements;
    hide AllElements;
    hide Ended;
    hide NamePieces;
    hide Values;
    hide LeadTokens;
    hide ToUpper;
    var close := if open == '(' then ')' else ']';
    forall more
      ensures Parse(Start(ArrayForm(pieces, open, elements, tail, close) + more))
           == Ok((Array("", Concat(pieces), Values(elements)), Start(more)))
    {
      var body := AllElements(elements) + Behind(tail, close, more);
      assert ArrayForm(pieces, open, elements, tail, close) + more == Symbols(pieces) + [SymbolToken([open])] + body;
      NameOpens(pieces, open, body);
      BodyOpens(Start(Symbols(pieces) + [SymbolToken([open])] + body), Concat(pieces), open, body);
      ElementsAreRead([], elements, tail, close, more);
      assert [] + Values(elements) == Values(elements);
    }
  }

  lemma TableFormIsParsed(pieces: seq<string>, settings: seq<Setting>, tail: string, more: seq<Token>)
    requires NamePieces(pieces) && ProperSettings(settings) && SettingsEnded(settings, tail)
    ensures Parse(Start(TableForm(pieces, settings, tail) + more))
         == Ok((Table("", Concat(pieces), Assign([], settings)), Start(more)))
  {
    hide *;
    var body := AllSettings(settings) + Behind(tail, '}', more);
    TableFormSplit(pieces, settings, tail, more);
    BraceOpens(pieces, body);
    SettingsAreRead([], settings, tail, more);
    TableOfOk(Concat(pieces), Assign([], settings), Start(more));
  }

  lemma TableFormSplit(pieces: seq<string>, settings: seq<Setting>, tail: string, more: seq<Token>)
    ensures TableForm(pieces, settings, tail) + more
         == Symbols(pieces) + [SymbolToken("{")] + (AllSettings(settings) + Behind(tail, '}', more))
  {
    hide LeadTokens;
    hide AllSettings;
  }

  lemma BraceOpens(pieces: seq<string>, body: seq<Token>)
    requires NamePieces(pieces)
    ensures Parse(Start(Symbols(pieces) + [SymbolToken("{")] + body))
         == TableOf(Concat(pieces), ParseEntries(Start(body), '}', []))
  {
    hide ParseName;
    hide Parse;
    hide ParseEntries;
    hide NamePieces;
    hide ToUpper;
    hide Start;
    NameOpens(pieces, '{', body);
    BodyOpens(Start(Symbols(pieces) + [SymbolToken("{")] + body), Concat(pieces), '{', body);
  }

  lemma TableOfOk(name: string, entries: seq<Entry>, next: Input)
    ensures TableOf(name, Ok((entries, next))) == Ok((Table("", name, entries), next))
  {
  }

  /** A table whose entries are set in any order, and some of them perhaps more than once. */
  lemma TableIsRead(pieces: seq<string>, settings: seq<Setting>, tail: string) returns (entries: seq<Entry>)
    requires NamePieces(pieces) && ProperSettings(settings) && SettingsEnded(settings, tail)
    ensures Reads(TableForm(pieces, settings, tail), Table("", Concat(pieces), entries))
    ensures HoldsLast(entries, settings)
  {
    entries := Assign([], settings);
    AssignExactly([], settings);
    hide Parse;
    hide Start;
    hide ProperSettings;
    hide SettingsEnded;
    hide NamePieces;
    hide Assign;
    hide TableForm;
    hide LastSets;
    hide Ascending;
    forall more
      ensures Parse(Start(TableForm(pieces, settings, tail) + more))
           == Ok((Table("", Concat(pieces), entries), Start(more)))
    {
      TableFormIsParsed(pieces, settings, tail, more);
    }
  }

  /** There is only one such table. */
  lemma TableIsDetermined(a: seq<Entry>, b: seq<Entry>, settings: seq<Setting>)
    requires HoldsLast(a, settings) && HoldsLast(b, settings)
    ensures a == b
  {
    hide LastSets;
    SameEntries(a, b);
  }
}

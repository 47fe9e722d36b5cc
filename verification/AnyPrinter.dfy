/** The tokens of a printed value, which values the lexer takes apart as the printer meant them, and where reading
    fails. */
module AnyPrinter {
  import opened Results
  import opened AnyParser
  import opened AnyText
  import opened AnyTokens

  /** What the text format leaves open: how the lexer splits a bare name or key, how a number is spelt, and whether
      lines end as on Windows. */
  datatype Syntax = Syntax(lex: string -> seq<Token>, digits: real -> string, windows: bool)

  // ---------- the printer ----------

  /** How far text is indented within so many tables and arrays. */
  function IndentSpaces(depth: nat): nat {
    if depth < 20 then 4 * depth else 79
  }

  /** A comment is one token, of what the lexer finds between its marks. */
  function CommentTokens(v: Any, text: Syntax, depth: nat): seq<Token> {
    if v.comment == "" then [] else [CommentToken(FoundComment(v.comment, text.windows, IndentSpaces(depth)))]
  }

  /** A word written without quotes; an empty one is not written at all. */
  function WordTokens(word: string, text: Syntax): seq<Token> {
    if word == "" then [] else text.lex(word)
  }

  function NameTokens(name: string, quotable: bool, text: Syntax): seq<Token> {
    if quotable && name != "" && NeedsQuotes(name) then [StringToken(name)] else WordTokens(name, text)
  }

  function BooleanText(b: bool): string {
    if b then "true" else "false"
  }

  /** The tokens of a value within so many tables and arrays. */
  function Tokens(v: Any, text: Syntax, depth: nat): seq<Token>
    decreases v, 1
  {
    CommentTokens(v, text, depth) + BareTokens(v, text, depth)
  }

  function BareTokens(v: Any, text: Syntax, depth: nat): (tokens: seq<Token>)
    decreases v, 0
  {
    match v
    case None(_) => [SymbolToken("NONE")]
    case Boolean(_, b) => [BooleanToken(BooleanText(b), b)]
    case Number(_, n) => [NumberToken(text.digits(n), n)]
    case String(_, s) => [StringToken(s)]
    case Table(_, name, entries) =>
      NameTokens(name, true, text) + [SymbolToken("{")] + EntryTokens(entries, text, depth + 1) + [SymbolToken("}")]
    case Array(_, name, elements) =>
      NameTokens(name, false, text) + [SymbolToken("(")] + ElementTokens(elements, text, depth + 1) + [SymbolToken(")")]
  }

  function Comma<T>(rest: seq<T>): seq<Token> {
    if rest == [] then [] else [SymbolToken(",")]
  }

  function ElementTokens(elements: seq<Any>, text: Syntax, depth: nat): seq<Token>
    decreases elements, 0
  {
    if elements == [] then []
    else Tokens(elements[0], text, depth) + Comma(elements[1..]) + ElementTokens(elements[1..], text, depth)
  }

  function EntryTokens(entries: seq<Entry>, text: Syntax, depth: nat): seq<Token>
    decreases entries, 0
  {
    if entries == [] then []
    else
      WordTokens(entries[0].key, text) + [SymbolToken("=")] + Tokens(entries[0].value, text, depth)
      + Comma(entries[1..]) + EntryTokens(entries[1..], text, depth)
  }

  // ---------- values whose text holds the tokens above ----------

  predicate AllSymbols(tokens: seq<Token>) {
    forall i :: 0 <= i < |tokens| ==> tokens[i].SymbolToken?
  }

  function Texts(tokens: seq<Token>): (pieces: seq<string>)
    requires AllSymbols(tokens)
    ensures tokens == Symbols(pieces)
  {
    seq(|tokens|, i requires 0 <= i < |tokens| => tokens[i].text)
  }

  /** A name the lexer splits into symbols that spell it and none of which looks like something else. */
  predicate ProperName(name: string, text: Syntax) {
    name != "" ==>
      && AllSymbols(text.lex(name))
      && var pieces := Texts(text.lex(name));
      && pieces != [] && Concat(pieces) == name
      && pieces[0] != "#" && ToUpper(pieces[0]) != "NONE" && (pieces[0] == "" || !IsClose(pieces[0][0]))
      && forall i :: 0 <= i < |pieces| ==> pieces[i] == "" || !IsOpen(pieces[i][0])
  }

  /** A key that holds no comment, string, closing brace or equals sign where the parser would take it for one; a
      single symbol spells the key. */
  predicate PlainKey(key: string, text: Syntax) {
    var tokens := text.lex(key);
    && tokens != [] && !tokens[0].CommentToken? && !tokens[0].StringToken? && !IsCloseSymbol(tokens[0], '}')
    && (tokens[0].SymbolToken? ==>
          if |tokens| == 1 then tokens[0].text == key
          else !tokens[1].CommentToken? && !tokens[1].NewlineToken? && !tokens[1].IsSymbol("="))
  }

  /** An empty key makes the equals sign the key; then a value that starts with another one would be misread. */
  predicate PlainEntry(e: Entry, text: Syntax) {
    if e.key == "" then !(e.value.Array? && e.value.name != "" && StartsWithEquals(text.lex(e.value.name)))
    else PlainKey(e.key, text)
  }

  predicate StartsWithEquals(tokens: seq<Token>) {
    tokens != [] && tokens[0].IsSymbol("=")
  }

  /** Keys in strictly ascending order. */
  predicate Ascending(entries: seq<Entry>) {
    forall i :: 0 < i < |entries| ==> Less(entries[i - 1].key, entries[i].key)
  }

  /** A table whose name is written as a string. */
  predicate Quoted(v: Any) {
    v.Table? && v.name != "" && NeedsQuotes(v.name)
  }

  /** Values whose text the lexer takes apart as the printer meant it, whether or not the parser then reads them back.
      Nothing is asked of what follows a quoted name. */
  predicate Printable(v: Any, text: Syntax)
    decreases v
  {
    OneComment(v.comment) &&
    match v
    case String(_, s) => StringSurvives(s)
    case Table(_, name, entries) =>
      if Quoted(v) then StringSurvives(name)
      else
        && ProperName(name, text) && Ascending(entries)
        && forall i :: 0 <= i < |entries| ==> PlainEntry(entries[i], text) && Printable(entries[i].value, text)
    case Array(_, name, elements) =>
      && ProperName(name, text)
      && forall i :: 0 <= i < |elements| ==> Printable(elements[i], text)
    case _ => true
  }

  /** The lexer reads the key as one symbol. */
  predicate OneSymbol(key: string, text: Syntax) {
    key != "" && text.lex(key) == [SymbolToken(key)]
  }

  /** No table in the value has a name that needs quotes, and every key is one symbol. */
  predicate Readable(v: Any, text: Syntax)
    decreases v
  {
    match v
    case Table(_, name, entries) =>
      && !Quoted(v)
      && forall i :: 0 <= i < |entries| ==> OneSymbol(entries[i].key, text) && Readable(entries[i].value, text)
    case Array(_, name, elements) => forall i :: 0 <= i < |elements| ==> Readable(elements[i], text)
    case _ => true
  }

  /** A comment that is trimmed and survives being written within so many tables and arrays, and scanned. */
  predicate ProperComment(comment: string, text: Syntax, depth: nat) {
    TrimWhitespace(comment) == comment && CommentSurvives(comment, text.windows, IndentSpaces(depth))
  }

  /** All comments of a value within so many tables and arrays are such. */
  predicate ProperComments(v: Any, text: Syntax, depth: nat)
    decreases v
  {
    ProperComment(v.comment, text, depth) &&
    match v
    case Table(_, _, entries) => forall i :: 0 <= i < |entries| ==> ProperComments(entries[i].value, text, depth + 1)
    case Array(_, _, elements) => forall i :: 0 <= i < |elements| ==> ProperComments(elements[i], text, depth + 1)
    case _ => true
  }

  // ---------- what reading makes of comments ----------

  function RereadComment(comment: string, text: Syntax, depth: nat): string {
    if comment == "" then "" else TrimWhitespace(FoundComment(comment, text.windows, IndentSpaces(depth)))
  }

  function Annotated(v: Any, comment: string): Any {
    v.(comment := comment)
  }

  /** The value with all comments as they are read. */
  function Reread(v: Any, text: Syntax, depth: nat): Any
    decreases v, 1
  {
    var comment := RereadComment(v.comment, text, depth);
    match v
    case Table(_, name, entries) => Table(comment, name, RereadEntries(entries, text, depth + 1))
    case Array(_, name, elements) => Array(comment, name, RereadElements(elements, text, depth + 1))
    case _ => Annotated(v, comment)
  }

  function RereadElements(elements: seq<Any>, text: Syntax, depth: nat): seq<Any>
    decreases elements, 0
  {
    if elements == [] then []
    else [Reread(elements[0], text, depth)] + RereadElements(elements[1..], text, depth)
  }

  function RereadEntries(entries: seq<Entry>, text: Syntax, depth: nat): seq<Entry>
    decreases entries, 0
  {
    if entries == [] then []
    else [Entry(entries[0].key, Reread(entries[0].value, text, depth))] + RereadEntries(entries[1..], text, depth)
  }

  // ---------- where reading fails ----------

  datatype Fault = NoFault | Fault(error: Error)

  function KeyFault(key: string, text: Syntax): Fault {
    if key == "" then Fault(ExpectedEquals)
    else
      var tokens := text.lex(key);
      if tokens == [] || !tokens[0].SymbolToken? then Fault(ExpectedName)
      else if |tokens| == 1 then NoFault
      else Fault(ExpectedEquals)
  }

  /** The first fault within a value, from the left; at a quoted name reading ends early. */
  function FaultIn(v: Any, text: Syntax): Fault
    decreases v, 1
  {
    match v
    case Table(_, _, entries) => EntriesFault(entries, text)
    case Array(_, _, elements) => ElementsFault(elements, text)
    case _ => NoFault
  }

  function ItemFault(v: Any, text: Syntax): Fault
    decreases v, 2
  {
    if Quoted(v) then Fault(ExpectedCommaOrClose) else FaultIn(v, text)
  }

  function ElementsFault(elements: seq<Any>, text: Syntax): Fault
    decreases elements, 0
  {
    if elements == [] then NoFault
    else if ItemFault(elements[0], text) != NoFault then ItemFault(elements[0], text)
    else ElementsFault(elements[1..], text)
  }

  function EntriesFault(entries: seq<Entry>, text: Syntax): Fault
    decreases entries, 0
  {
    if entries == [] then NoFault
    else if KeyFault(entries[0].key, text) != NoFault then KeyFault(entries[0].key, text)
    else if ItemFault(entries[0].value, text) != NoFault then ItemFault(entries[0].value, text)
    else EntriesFault(entries[1..], text)
  }

  /** What the parser makes of the tokens of a value and what follows them. */
  function Outcome(v: Any, text: Syntax, depth: nat, more: seq<Token>): Parsed<(Any, Input)> {
    if Quoted(v) then
      Ok((String(RereadComment(v.comment, text, depth), v.name),
          Input(SymbolToken("{"), QuotedRest(v, text, depth, more))))
    else
      match FaultIn(v, text)
      case NoFault => Ok((Reread(v, text, depth), Start(more)))
      case Fault(e) => Failure(e)
  }

  /** What is left over after the brace behind a quoted name. */
  function QuotedRest(v: Any, text: Syntax, depth: nat, more: seq<Token>): seq<Token>
    requires v.Table?
  {
    EntryTokens(v.entries, text, depth + 1) + [SymbolToken("}")] + more
  }
}

/** Self-describing values: what the printer writes and what the parser makes of a list of tokens. */
module AnyParser {
  import opened Results
  import opened AnyTokens

  /** A value with its comment; the entries of a table are in the order of their keys. */
  datatype Any =
    | None(comment: string)
    | Boolean(comment: string, b: bool)
    | Number(comment: string, n: real)
    | String(comment: string, s: string)
    | Table(comment: string, name: string, entries: seq<Entry>)
    | Array(comment: string, name: string, elements: seq<Any>)

  datatype Entry = Entry(key: string, value: Any)

  datatype Error = FileEnded | UnexpectedToken | ExpectedSymbol | Malformed | ExpectedName | ExpectedEquals
                 | ExpectedCommaOrClose | PragmaFound

  type Parsed<T> = Result<T, Error>

  predicate Less(a: string, b: string) {
    if b == "" then false
    else if a == "" then true
    else a[0] < b[0] || (a[0] == b[0] && Less(a[1..], b[1..]))
  }

  /** Sets a key in a table, keeping the entries in the order of their keys. */
  function SetEntry(entries: seq<Entry>, key: string, value: Any): seq<Entry> {
    if entries == [] then [Entry(key, value)]
    else
      var n := |entries| - 1;
      var last := entries[n];
      if last.key == key then entries[..n] + [Entry(key, value)]
      else if Less(last.key, key) then entries + [Entry(key, value)]
      else SetEntry(entries[..n], key, value) + [last]
  }

  // ---------- the parser, as a function of the tokens ----------

  function SkipNewlines(input: Input): (next: Input)
    ensures next.Size() <= input.Size() && !next.token.NewlineToken?
    decreases input.Size()
  {
    if input.token.NewlineToken? then SkipNewlines(input.Read()) else input
  }

  /** Reads tokens while they are newlines, at least one, each adding a line end to the comment. */
  function CommentLines(input: Input, comment: string): (next: (string, Input))
    requires !input.token.EndToken?
    ensures next.1.Size() < input.Size()
    decreases input.Size()
  {
    var read := input.Read();
    if read.token.NewlineToken? then CommentLines(read, comment + "\n")
    else (comment + "\n", read)
  }

  function Comments(input: Input, comment: string): (next: (string, Input))
    ensures next.1.Size() <= input.Size() && !next.1.token.CommentToken?
    decreases input.Size()
  {
    if input.token.CommentToken? then
      var (lines, read) := CommentLines(input, comment + TrimWhitespace(input.token.text) + "\n");
      Comments(read, lines)
    else (TrimWhitespace(comment), input)
  }

  function ReadSignificant(input: Input): (next: Input)
    requires !input.token.EndToken?
    ensures next.Size() < input.Size()
    decreases input.Size()
  {
    var read := input.Read();
    if read.token.CommentToken? || read.token.NewlineToken? then ReadSignificant(read) else read
  }

  /** Joins symbols up to an opening parenthesis of some form. */
  function ParseName(input: Input, name: string): (next: Parsed<(string, Input)>)
    requires input.token.SymbolToken?
    ensures next.Ok? ==> next.value.1.Size() <= input.Size()
    ensures next.Ok? ==> next.value.1.token.SymbolToken? && IsOpen(next.value.1.token.First())
    decreases input.Size()
  {
    if IsOpen(input.token.First()) then Ok((name, input))
    else
      var read := ReadSignificant(input);
      if !read.token.SymbolToken? then Failure(ExpectedSymbol)
      else ParseName(read, name + input.token.text)
  }

  predicate AtClose(token: Token) {
    token.SymbolToken? && IsClose(token.First())
  }

  function UntilCommaOrClose(input: Input): (next: Parsed<Input>)
    ensures next.Ok? ==> next.value.Size() <= input.Size()
    ensures next.Ok? ==> AtClose(next.value.token) || IsSeparator(next.value.token.First())
    ensures next.Failure? ==> next.error == ExpectedCommaOrClose
    decreases input.Size()
  {
    if AtClose(input.token) || IsSeparator(input.token.First()) then Ok(input)
    else if input.token.NewlineToken? || input.token.CommentToken? then UntilCommaOrClose(input.Read())
    else Failure(ExpectedCommaOrClose)
  }

  function CloseOf(c: char): char {
    if c == '{' then '}' else if c == '(' then ')' else ']'
  }

  predicate IsCloseSymbol(token: Token, close: char) {
    token.SymbolToken? && token.First() == close
  }

  function WithComment(v: Any, comment: string): Any {
    if comment == "" then v else v.(comment := comment)
  }

  /** A comment read in front of an element precedes the one that the element has already. */
  function WithLeading(v: Any, comment: string): Any {
    if comment == "" then v else v.(comment := TrimWhitespace(comment + "\n" + v.comment))
  }

  function Parse(input: Input): (next: Parsed<(Any, Input)>)
    ensures next.Ok? ==> next.value.1.Size() < input.Size()
    decreases input.Size(), 2
  {
    var start := SkipNewlines(input);
    var (comment, at) := if start.token.CommentToken? then Comments(start, "") else ("", start);
    if at.token.EndToken? then Failure(FileEnded)
    else
      match ParseValue(at)
      case Failure(e) => Failure(e)
      case Ok((v, next)) => Ok((WithComment(v, comment), next))
  }

  /** A value without comment. */
  function ParseValue(at: Input): (next: Parsed<(Any, Input)>)
    requires !at.token.EndToken?
    ensures next.Ok? ==> next.value.1.Size() < at.Size()
    decreases at.Size(), 1
  {
    match at.token
    case StringToken(s) => Ok((String("", s), at.Read()))
    case NumberToken(_, n) => Ok((Number("", n), at.Read()))
    case BooleanToken(_, b) => Ok((Boolean("", b), at.Read()))
    case SymbolToken(s) =>
      if s == "#" then Failure(PragmaFound)
      else if ToUpper(s) == "NONE" then Ok((None(""), at.Read()))
      else
        (match ParseName(at, "")
         case Failure(e) => Failure(e)
         case Ok((name, open)) => ParseBody(name, open))
    case _ => Failure(UnexpectedToken)
  }

  /** From the opening symbol after a name on. */
  function ParseBody(name: string, open: Input): (next: Parsed<(Any, Input)>)
    requires !open.token.EndToken?
    ensures next.Ok? ==> next.value.1.Size() < open.Size()
    decreases open.Size(), 0
  {
    var close := CloseOf(open.token.First());
    if open.token.First() == '{' then
      (match ParseEntries(open.Read(), close, [])
       case Failure(e) => Failure(e)
       case Ok((entries, next)) => Ok((Table("", name, entries), next)))
    else
      (match ParseElements(open.Read(), close, [])
       case Failure(e) => Failure(e)
       case Ok((elements, next)) => Ok((Array("", name, elements), next)))
  }

  /** Skips the separator after an element. */
  function AfterItem(input: Input): (next: Parsed<Input>)
    ensures next.Ok? ==> next.value.Size() <= input.Size()
  {
    match UntilCommaOrClose(input)
    case Failure(e) => Failure(e)
    case Ok(at) => Ok(if IsSeparator(at.token.First()) then at.Read() else at)
  }

  /** The elements of an array up to its close symbol, which is consumed. */
  function ParseElements(input: Input, close: char, elements: seq<Any>): (next: Parsed<(seq<Any>, Input)>)
    ensures next.Ok? ==> next.value.1.Size() <= input.Size()
    decreases input.Size(), 3
  {
    if IsCloseSymbol(input.token, close) then Ok((elements, input.Read()))
    else
      var (comment, at) := Comments(input, "");
      if IsCloseSymbol(at.token, close) then Ok((elements, at.Read()))
      else
        match Parse(at)
        case Failure(e) => Failure(e)
        case Ok((v, end)) =>
          (match AfterItem(end)
           case Failure(e) => Failure(e)
           case Ok(next) => ParseElements(next, close, elements + [WithLeading(v, comment)]))
  }

  /** The key of a table entry and its equals sign. */
  function ParseKey(at: Input): (next: Parsed<(string, Input)>)
    ensures next.Ok? ==> next.value.1.Size() < at.Size()
  {
    if !at.token.SymbolToken? && !at.token.StringToken? then Failure(ExpectedName)
    else
      var equals := ReadSignificant(at);
      if !equals.token.IsSymbol("=") then Failure(ExpectedEquals)
      else Ok((at.token.text, equals.Read()))
  }

  /** The entries of a table up to its close symbol, which is consumed. */
  function ParseEntries(input: Input, close: char, entries: seq<Entry>): (next: Parsed<(seq<Entry>, Input)>)
    ensures next.Ok? ==> next.value.1.Size() <= input.Size()
    decreases input.Size(), 3
  {
    if IsCloseSymbol(input.token, close) then Ok((entries, input.Read()))
    else
      var (comment, at) := Comments(input, "");
      if IsCloseSymbol(at.token, close) then Ok((entries, at.Read()))
      else
        match ParseKey(at)
        case Failure(e) => Failure(e)
        case Ok((key, value)) =>
          (match Parse(value)
           case Failure(e) => Failure(e)
           case Ok((v, end)) =>
             (match AfterItem(end)
              case Failure(e) => Failure(e)
              case Ok(next) => ParseEntries(next, close, SetEntry(entries, key, WithLeading(v, comment)))))
  }
}

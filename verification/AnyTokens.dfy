/** Tokens, the stream they are read from, and the text helpers of the value parser. */
module AnyTokens {
  datatype Token =
    | StringToken(text: string)
    | NumberToken(text: string, number: real)
    | BooleanToken(text: string, boolean: bool)
    | SymbolToken(text: string)
    | CommentToken(text: string)
    | NewlineToken(text: string)
    | EndToken
  {
    /** The first character of the token's text; '\0' when it has none. */
    function First(): char {
      if this.EndToken? || text == "" then '\0' else text[0]
    }

    predicate IsSymbol(s: string) {
      SymbolToken? && text == s
    }
  }

  /** The current token and those not yet read; past the last one there are only end tokens. */
  datatype Input = Input(token: Token, rest: seq<Token>) {
    function Read(): (next: Input)
      ensures !token.EndToken? ==> next.Size() < Size()
      ensures next.Size() <= Size()
    {
      if rest == [] then Input(EndToken, []) else Input(rest[0], rest[1..])
    }

    /** How many tokens there still are. */
    function Size(): nat {
      |rest| + if token.EndToken? then 0 else 1
    }
  }

  /** Starts reading a list of tokens. */
  function Start(tokens: seq<Token>): Input {
    Input(EndToken, tokens).Read()
  }

  // ---------- characters and white space ----------

  predicate IsWhiteSpace(c: char) {
    c == ' ' || c == '\t' || c == '\n' || c == '\r' || c == '\U{0b}' || c == '\U{0c}'
  }

  /** The blank and the five characters that move to another line or column. */
  lemma WhiteSpaceIs(c: char)
    ensures IsWhiteSpace(c) <==> c == ' ' || 9 <= c as int <= 13
  {
  }

  predicate IsLetter(c: char) {
    'a' <= c <= 'z' || 'A' <= c <= 'Z'
  }

  predicate IsDigit(c: char) {
    '0' <= c <= '9'
  }

  predicate IsOpen(c: char) {
    c == '(' || c == '[' || c == '{'
  }

  predicate IsClose(c: char) {
    c == ')' || c == ']' || c == '}'
  }

  predicate IsSeparator(c: char) {
    c == ',' || c == ';'
  }

  function ToUpper(s: string): string {
    seq(|s|, i requires 0 <= i < |s| => if 'a' <= s[i] <= 'z' then (s[i] - 'a') + 'A' else s[i])
  }

  function TrimStart(s: string): (t: string)
    ensures |t| <= |s|
  {
    if s != "" && IsWhiteSpace(s[0]) then TrimStart(s[1..]) else s
  }

  function TrimEnd(s: string): (t: string)
    ensures |t| <= |s|
  {
    if s != "" && IsWhiteSpace(s[|s| - 1]) then TrimEnd(s[..|s| - 1]) else s
  }

  function TrimWhitespace(s: string): string {
    TrimEnd(TrimStart(s))
  }

  /** Trimming removes what the writer and the reader put around a comment. */
  lemma TrimPadded(c: string)
    requires TrimWhitespace(c) == c && c != ""
    ensures TrimWhitespace(" " + c + " ") == c
    ensures TrimWhitespace(c + "\n" + "\n") == c
    ensures TrimWhitespace(c + "\n") == c
  {
    assert TrimStart(c + " ") == c + " " && TrimStart(c + "\n") == c + "\n";
    assert (" " + c + " ")[1..] == c + " ";
    assert (c + " ")[..|c|] == c && (c + "\n")[..|c|] == c;
    assert c + "\n" + "\n" == (c + "\n") + "\n";
    assert (c + "\n" + "\n")[..|c| + 1] == c + "\n";
    assert TrimStart(c + "\n" + "\n") == c + "\n" + "\n";
    assert TrimEnd(c + "\n" + "\n") == TrimEnd(c + "\n") == TrimEnd(c);
  }

  // ---------- names ----------

  /** Whether a table name is written as a string: when it is no run of letters, digits, dots, -> and ::. */
  predicate NeedsQuotes(s: string)
    requires s != ""
  {
    (!IsLetter(s[0]) && s[0] != '_') || IllegalFrom(s, 0)
  }

  predicate IllegalFrom(s: string, i: nat)
    decreases |s| - i
  {
    if i >= |s| then false
    else
      var c := s[i];
      var p := if i == |s| - 1 then '_' else s[i + 1];
      if (c == '-' && p == '>') || (c == ':' && p == ':') then IllegalFrom(s, i + 2)
      else if !IsDigit(c) && !IsLetter(c) && c != '.' then true
      else IllegalFrom(s, i + 1)
  }

  function Concat(pieces: seq<string>): string {
    if pieces == [] then "" else pieces[0] + Concat(pieces[1..])
  }

  /** A piece of a name that is written without quotes. */
  predicate PlainPiece(p: string) {
    || p == "->" || p == "::"
    || (|p| == 1 && ('a' <= p[0] <= 'z' || 'A' <= p[0] <= 'Z' || '0' <= p[0] <= '9' || p[0] == '.'))
  }

  ghost predicate Consists(s: string, pieces: seq<string>) {
    Concat(pieces) == s && forall i :: 0 <= i < |pieces| ==> PlainPiece(pieces[i])
  }

  /** Text from place i on that is not illegal consists of such pieces. */
  lemma {:induction false} LegalPieces(s: string, i: nat) returns (pieces: seq<string>)
    requires i <= |s| && !IllegalFrom(s, i)
    ensures Consists(s[i..], pieces)
    decreases |s| - i
  {
    if i == |s| {
      pieces := [];
    } else {
      var n := if i < |s| - 1 && (s[i..i + 2] == "->" || s[i..i + 2] == "::") then 2 else 1;
      assert n == 2 ==> s[i + 1] == s[i..i + 2][1];
      var more := LegalPieces(s, i + n);
      var first := s[i..i + n];
      pieces := [first] + more;
      var t := s[i..];
      assert t[..n] == first && t[n..] == s[i + n..] && t == t[..n] + t[n..];
    }
  }

  lemma {:induction false} PiecesAreLegal(s: string, i: nat, pieces: seq<string>)
    requires i <= |s| && Consists(s[i..], pieces)
    ensures !IllegalFrom(s, i)
    decreases |pieces|
  {
    if pieces != [] {
      var t, n := s[i..], |pieces[0]|;
      assert t == pieces[0] + Concat(pieces[1..]);
      assert forall k :: 0 <= k < n ==> t[k] == pieces[0][k] && s[i + k] == t[k];
      assert s[i + n..] == t[n..] == Concat(pieces[1..]);
      PiecesAreLegal(s, i + n, pieces[1..]);
    }
  }

  /** A name is written without quotes exactly if it starts with a letter and consists of letters, digits, dots, -> and
      :: only. The underscore, with which a name may start, is not among them. */
  lemma NeedsQuotesExactly(s: string)
    requires s != ""
    ensures !NeedsQuotes(s)
            <==> ('a' <= s[0] <= 'z' || 'A' <= s[0] <= 'Z') && exists pieces :: Consists(s, pieces)
  {
    assert s[0..] == s;
    if !NeedsQuotes(s) {
      var pieces := LegalPieces(s, 0);
      assert Consists(s, pieces);
    }
    if pieces :| Consists(s, pieces) {
      PiecesAreLegal(s, 0, pieces);
    }
  }

  function Symbols(pieces: seq<string>): (tokens: seq<Token>)
    ensures |tokens| == |pieces|
  {
    seq(|pieces|, i requires 0 <= i < |pieces| => SymbolToken(pieces[i]))
  }
}

/**
 * config_parse on a whole file: the character loop that fills the token
 * buffer and hands each finished token to the state machine, the check at
 * end of input, and the validation pass.
 *
 * The file is a sequence of characters (fgetc is not modelled); the result
 * is None wherever config_parse returns NULL, and the validated binds
 * otherwise.
 */
module ConfigParse {
  import opened Wrappers
  import opened CStrings
  import opened ConfigModel
  import opened ConfigLexer
  import opened ConfigValidate

  /**
   * What config_parse returns for the input: the tokens are run through the
   * state machine, the parser must be back at top level (otherwise the input
   * ended inside a block), and the binds must pass validation. Characters
   * after the last whitespace are never looked at.
   */
  function Parse(ssl: bool, input: string): (r: Option<seq<Bind>>)
    ensures r.Some? ==> Ready(ssl, r.value)
  {
    match Lex(input)
    case None => None
    case Some(l) =>
      match Run(ssl, Start, l.tokens)
      case None => None
      case Some(p) => if p.phase != TopLevel then None else Validated(ssl, p.binds)
  }

  /**
   * config_parse: one pass over the characters with a token buffer of
   * MAX_TOKEN_LENGTH characters; whitespace ends a token, which is NUL
   * terminated and handed to the switch; end of input must find the parser
   * at top level; then the validation loops run.
   */
  method ParseConfig(ssl: bool, input: string) returns (r: Option<seq<Bind>>)
    ensures r == Parse(ssl, input)
  {
    var currentToken := new char[MaxTokenLength];
    var currentTokenLength := 0;
    var parser := Start;
    ghost var lexed := Lexed([], []);
    ghost var seen: string := [];
    var i := 0;
    while i < |input|
      invariant 0 <= i <= |input| && 0 <= currentTokenLength < MaxTokenLength
      invariant seen == input[..i] && Lex(seen) == Some(lexed)
      invariant lexed.pending == currentToken[..currentTokenLength]
      invariant Shaped(parser) && Run(ssl, Start, lexed.tokens) == Some(parser)
    {
      var c := input[i];
      ghost var fed := Feed(lexed, c);
      if IsSpace(c) {
        if currentTokenLength != 0 {
          var next := EndToken(ssl, currentToken, currentTokenLength, parser, lexed.tokens);
          if next.None? {
            TokenRejected(ssl, input, i, lexed);
            return None;
          }
          parser := next.value;
          currentTokenLength := 0;
        }
      } else {
        if currentTokenLength >= MaxTokenLength - 1 {
          CharRejected(ssl, input, i, lexed);
          return None;
        }
        currentToken[currentTokenLength] := c;
        currentTokenLength := currentTokenLength + 1;
      }
      assert fed.Some? && fed.value.pending == currentToken[..currentTokenLength];
      LexSnoc(seen, c, lexed);
      PrefixSnoc(input, i);
      seen := seen + [c];
      lexed := fed.value;
      i := i + 1;
    }
    assert seen == input;
    r := Finish(ssl, seen, lexed, parser);
  }

  /** End of input: the parser must be back at top level, then the validation pass runs. */
  method Finish(ssl: bool, ghost input: string, ghost lexed: Lexed, parser: Parser) returns (r: Option<seq<Bind>>)
    requires Lex(input) == Some(lexed) && Shaped(parser) && Run(ssl, Start, lexed.tokens) == Some(parser)
    ensures r == Parse(ssl, input)
  {
    if parser.phase != TopLevel {
      return None;
    }
    r := ValidateConfig(ssl, parser.binds);
  }

  /** A character that would make the pending token too long ends the parse. */
  lemma CharRejected(ssl: bool, input: string, i: nat, l: Lexed)
    requires i < |input| && Lex(input[..i]) == Some(l) && Feed(l, input[i]).None?
    ensures Parse(ssl, input) == None
  {
    FeedPrefix(input, i, l);
    LexFailureSticks(input[..i + 1], input[i + 1..]);
    assert input[..i + 1] + input[i + 1..] == input;
  }

  /** A whitespace character ending a token the state machine rejects ends the parse. */
  lemma TokenRejected(ssl: bool, input: string, i: nat, l: Lexed)
    requires i < |input| && Lex(input[..i]) == Some(l) && IsSpace(input[i]) && l.pending != []
    requires Run(ssl, Start, l.tokens + [l.pending]).None?
    ensures Parse(ssl, input) == None
  {
    FeedPrefix(input, i, l);
    RejectedToken(ssl, input, i + 1, l.tokens + [l.pending]);
  }

  /** A finished token: NUL terminated in the buffer, read back as a C string and handed to the switch. */
  method EndToken(ssl: bool, buffer: array<char>, length: nat, parser: Parser, ghost tokens: seq<string>)
    returns (next: Option<Parser>)
    requires 0 < length < buffer.Length
    requires Shaped(parser) && Run(ssl, Start, tokens) == Some(parser)
    modifies buffer
    ensures buffer[..length] == old(buffer[..length])
    ensures next == Run(ssl, Start, tokens + [buffer[..length]])
  {
    ghost var pending := buffer[..length];
    buffer[length] := NUL;
    assert buffer[..length] == pending;
    var t := TokenText(buffer, length);
    RunLast(ssl, tokens, parser, pending);
    next := Step(ssl, parser, t);
  }

  /** The tokeniser after one more character. */
  lemma LexSnoc(s: string, c: char, l: Lexed)
    requires Lex(s) == Some(l)
    ensures Lex(s + [c]) == Feed(l, c)
  {
    assert (s + [c])[..|s|] == s;
  }

  lemma PrefixSnoc(input: string, i: nat)
    requires i < |input|
    ensures input[..i + 1] == input[..i] + [input[i]]
  {
  }

  /** The tokeniser after one more character of the input. */
  lemma FeedPrefix(input: string, i: nat, l: Lexed)
    requires i < |input| && Lex(input[..i]) == Some(l)
    ensures Lex(input[..i + 1]) == Feed(l, input[i])
  {
    assert input[..i + 1][..i] == input[..i];
  }

  /** Running one more token is one more step. */
  lemma RunLast(ssl: bool, tokens: seq<string>, parser: Parser, t: string)
    requires Run(ssl, Start, tokens) == Some(parser)
    ensures Run(ssl, Start, tokens + [t]) == Step(ssl, parser, UpToNul(t))
  {
    RunAppend(ssl, Start, tokens, [t]);
    assert [t][1..] == [];
  }

  /** The token in the buffer as the C string functions read it: up to the first NUL. */
  method TokenText(buffer: array<char>, length: nat) returns (t: string)
    requires length < buffer.Length && buffer[length] == NUL
    ensures t == UpToNul(buffer[..length])
  {
    var n := 0;
    while buffer[n] != NUL
      invariant 0 <= n <= length
      invariant forall k :: 0 <= k < n ==> buffer[k] != NUL
      decreases length - n
    {
      n := n + 1;
    }
    t := buffer[..n];
    ghost var s := buffer[..length];
    ghost var u := UpToNul(s);
    assert forall k :: 0 <= k < n ==> s[k] == t[k];
    assert n < length ==> s[n] == NUL;
    assert forall k :: 0 <= k < |u| ==> u[k] == s[k];
  }

  /** Once the tokens read from a prefix of the input are rejected, the whole input is. */
  lemma RejectedToken(ssl: bool, input: string, k: nat, tokens: seq<string>)
    requires k <= |input|
    requires Lex(input[..k]).Some? && Lex(input[..k]).value.tokens == tokens
    requires Run(ssl, Start, tokens).None?
    ensures Parse(ssl, input) == None
  {
    assert input[..k] + input[k..] == input;
    if Lex(input).Some? {
      LexExtends(input[..k], input[k..]);
      var all := Lex(input).value.tokens;
      assert all == tokens + all[|tokens|..];
      RunFailsOnPrefix(ssl, Start, tokens, all[|tokens|..]);
    }
  }

  /** Characters after the last whitespace (a final token with no whitespace after it) are ignored. */
  lemma TrailingTokenIgnored(ssl: bool, s: string, w: string)
    requires s == [] || IsSpace(s[|s| - 1])
    requires NoSpace(w) && |w| < MaxTokenLength
    ensures Parse(ssl, s + w) == Parse(ssl, s)
  {
    if Lex(s).Some? {
      LexRun(s, w);
    } else {
      LexFailureSticks(s, w);
    }
  }

  /** A token of MAX_TOKEN_LENGTH or more characters makes the parse fail, whatever surrounds it. */
  lemma LongTokenRejected(ssl: bool, s: string, w: string, u: string)
    requires NoSpace(w) && |w| >= MaxTokenLength
    ensures Parse(ssl, s + w + u) == None
  {
    LexLongRun(s, w);
    LexFailureSticks(s + w, u);
  }

  /** At top level only "bind" is accepted: a file whose first token is anything else is rejected. */
  lemma FirstTokenMustBeBind(ssl: bool, w: string, c: char, u: string)
    requires Word(w) && NUL !in w && w != "bind" && IsSpace(c)
    ensures Parse(ssl, w + [c] + u) == None
  {
    var e: string := [];
    assert Lex(e) == Some(Lexed([], []));
    WordThenSpace(e, w, c);
    assert e + w + [c] == w + [c];
    UpToNulWhole(w);
    assert [w][1..] == [];
    var input := w + [c] + u;
    assert input[..|w| + 1] == w + [c];
    RejectedToken(ssl, input, |w| + 1, [w]);
  }
}

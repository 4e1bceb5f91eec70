/**
 * The tokeniser of config_parse: the file is read one character at a time;
 * space, tab, CR and LF end a token, any other character is appended to the
 * token buffer of MAX_TOKEN_LENGTH characters, and a token that would need
 * more than MAX_TOKEN_LENGTH - 1 characters (one is kept for the NUL) makes
 * the parse fail. A token is handed to the parser only when whitespace
 * follows it, so the characters after the last whitespace are never used.
 */
module ConfigLexer {
  import opened Wrappers

  /** MAX_TOKEN_LENGTH, the size of the token buffer including its NUL. */
  const MaxTokenLength: nat := 128

  predicate IsSpace(c: char) {
    c == ' ' || c == '\t' || c == '\r' || c == '\n'
  }

  predicate NoSpace(s: string) {
    forall i :: 0 <= i < |s| ==> !IsSpace(s[i])
  }

  /** A token the buffer can hold: non-empty, without whitespace, at most MAX_TOKEN_LENGTH - 1 characters. */
  predicate Word(t: string) {
    t != [] && |t| < MaxTokenLength && NoSpace(t)
  }

  /** The complete tokens read so far and the characters of the token being read. */
  datatype Lexed = Lexed(tokens: seq<string>, pending: string)

  /** One character fed to the tokeniser: None when it would overflow the token buffer. */
  function Feed(l: Lexed, c: char): Option<Lexed> {
    if IsSpace(c) then
      if l.pending == [] then Some(l) else Some(Lexed(l.tokens + [l.pending], []))
    else if |l.pending| >= MaxTokenLength - 1 then None
    else Some(Lexed(l.tokens, l.pending + [c]))
  }

  /** The tokeniser after the whole input, or None when some token is too long. */
  function Lex(input: string): (r: Option<Lexed>)
    ensures r.Some? ==> (forall k :: 0 <= k < |r.value.tokens| ==> Word(r.value.tokens[k]))
    ensures r.Some? ==> |r.value.pending| < MaxTokenLength && NoSpace(r.value.pending)
    ensures r.Some? && input != [] && IsSpace(input[|input| - 1]) ==> r.value.pending == []
    decreases |input|
  {
    if input == [] then Some(Lexed([], []))
    else match Lex(input[..|input| - 1])
      case None => None
      case Some(l) => Feed(l, input[|input| - 1])
  }

  /** The tokens written out, each followed by one space. */
  function Unwords(ts: seq<string>): string {
    if ts == [] then [] else ts[0] + " " + Unwords(ts[1..])
  }

  /** Once the tokeniser has failed, no further input revives it. */
  lemma {:induction false} LexFailureSticks(s: string, u: string)
    requires Lex(s).None?
    ensures Lex(s + u).None?
    decreases |u|
  {
    if u == [] {
      assert s + u == s;
    } else {
      var v := u[..|u| - 1];
      LexFailureSticks(s, v);
      assert (s + u)[..|s + u| - 1] == s + v;
    }
  }

  /** Reading more input only adds tokens: the tokens of a prefix begin the tokens of the whole. */
  lemma {:induction false} LexExtends(s: string, u: string)
    requires Lex(s + u).Some?
    ensures Lex(s).Some? && Lex(s).value.tokens <= Lex(s + u).value.tokens
    decreases |u|
  {
    if u == [] {
      assert s + u == s;
    } else {
      var v := u[..|u| - 1];
      assert (s + u)[..|s + u| - 1] == s + v;
      LexExtends(s, v);
    }
  }

  /** Characters without whitespace, short enough, are gathered into the pending token. */
  lemma {:induction false} LexRun(s: string, w: string)
    requires Lex(s).Some? && Lex(s).value.pending == []
    requires NoSpace(w) && |w| < MaxTokenLength
    ensures Lex(s + w) == Some(Lexed(Lex(s).value.tokens, w))
    decreases |w|
  {
    if w == [] {
      assert s + w == s;
    } else {
      var v := w[..|w| - 1];
      assert (s + w)[..|s + w| - 1] == s + v;
      LexRun(s, v);
      assert v + [w[|w| - 1]] == w;
    }
  }

  /** A run of 128 or more characters without whitespace makes the tokeniser fail. */
  lemma LexLongRun(s: string, w: string)
    requires NoSpace(w) && |w| >= MaxTokenLength
    ensures Lex(s + w).None?
  {
    LexRunGrows(s, w, MaxTokenLength);
    assert s + w == (s + w[..MaxTokenLength]) + w[MaxTokenLength..];
    LexFailureSticks(s + w[..MaxTokenLength], w[MaxTokenLength..]);
  }

  /** While a run without whitespace is read, the pending token holds at least the run. */
  lemma {:induction false} LexRunGrows(s: string, w: string, k: nat)
    requires NoSpace(w) && k <= |w|
    ensures Lex(s + w[..k]).None? || |Lex(s + w[..k]).value.pending| >= k
    decreases k
  {
    if k > 0 {
      LexRunGrows(s, w, k - 1);
      assert (s + w[..k])[..|s + w[..k]| - 1] == s + w[..k - 1];
      assert (s + w[..k])[|s + w[..k]| - 1] == w[k - 1];
    }
  }

  /** A word followed by whitespace becomes one more token. */
  lemma WordThenSpace(s: string, w: string, c: char)
    requires Lex(s).Some? && Lex(s).value.pending == []
    requires Word(w) && IsSpace(c)
    ensures Lex(s + w + [c]) == Some(Lexed(Lex(s).value.tokens + [w], []))
  {
    LexRun(s, w);
    assert (s + w + [c])[..|s + w + [c]| - 1] == s + w;
  }

  /** Words written out with a space after each are read back as exactly those tokens. */
  lemma {:induction false} LexUnwords(s: string, ts: seq<string>)
    requires Lex(s).Some? && Lex(s).value.pending == []
    requires forall k :: 0 <= k < |ts| ==> Word(ts[k])
    ensures Lex(s + Unwords(ts)) == Some(Lexed(Lex(s).value.tokens + ts, []))
    decreases |ts|
  {
    if ts == [] {
      assert s + Unwords(ts) == s;
      assert Lex(s).value.tokens + ts == Lex(s).value.tokens;
    } else {
      var s' := s + ts[0] + " ";
      WordThenSpace(s, ts[0], ' ');
      LexUnwords(s', ts[1..]);
      UnwordsStep(s, ts, s');
    }
  }

  /** The input after the first word and its space, as LexUnwords steps through it. */
  lemma UnwordsStep(s: string, ts: seq<string>, s': string)
    requires ts != [] && s' == s + ts[0] + " "
    requires Lex(s).Some? && Lex(s') == Some(Lexed(Lex(s).value.tokens + [ts[0]], []))
    requires Lex(s' + Unwords(ts[1..])) == Some(Lexed(Lex(s').value.tokens + ts[1..], []))
    ensures Lex(s + Unwords(ts)) == Some(Lexed(Lex(s).value.tokens + ts, []))
  {
    UnwordsCons(s, ts);
    SeqCons(Lex(s).value.tokens, ts);
  }

  lemma UnwordsCons(s: string, ts: seq<string>)
    requires ts != []
    ensures s + Unwords(ts) == (s + ts[0] + " ") + Unwords(ts[1..])
  {
  }

  lemma SeqCons<T>(a: seq<T>, ts: seq<T>)
    requires ts != []
    ensures a + [ts[0]] + ts[1..] == a + ts
  {
    assert [ts[0]] + ts[1..] == ts;
  }

  /** The tokens of printed words are those words, with nothing pending. */
  lemma LexPrinted(ts: seq<string>)
    requires forall k :: 0 <= k < |ts| ==> Word(ts[k])
    ensures Lex(Unwords(ts)) == Some(Lexed(ts, []))
  {
    var e: string := [];
    LexNothing(e);
    LexUnwords(e, ts);
    FromNothing(e, Unwords(ts), ts);
  }

  lemma LexNothing(e: string)
    requires e == []
    ensures Lex(e) == Some(Lexed([], []))
  {
  }

  lemma FromNothing(e: string, u: string, ts: seq<string>)
    requires e == [] && Lex(e) == Some(Lexed([], []))
    requires Lex(e + u) == Some(Lexed(Lex(e).value.tokens + ts, []))
    ensures Lex(u) == Some(Lexed(ts, []))
  {
    assert e + u == u;
    assert Lex(e).value.tokens + ts == ts;
  }
}

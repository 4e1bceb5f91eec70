/**
 * The C string functions the parsers rely on (strlen, strchr-style scans,
 * strtok), stated over character sequences.  A C buffer is a `seq<char>` that
 * ends with its terminating NUL; the string "at" a position runs up to the
 * first NUL from there.
 */
module CStrings {
  import opened Wrappers

  const NUL: char := '\0'

  /** A character buffer that holds its terminating NUL as last element. */
  predicate Terminated(b: seq<char>) {
    |b| > 0 && b[|b| - 1] == NUL
  }

  /** Where the C string starting at p ends: the first NUL at or after p. */
  function NulFrom(b: seq<char>, p: nat): (n: nat)
    requires Terminated(b) && p < |b|
    ensures p <= n < |b| && b[n] == NUL
    ensures forall k | p <= k < n :: b[k] != NUL
    decreases |b| - p
  {
    if b[p] == NUL then p else NulFrom(b, p + 1)
  }

  /**
   * The C string held at position p of a buffer (what a `char*` pointing there
   * reads).  A position past the end reads as the empty string.
   */
  function CStr(b: seq<char>, p: nat): (s: string)
    requires Terminated(b)
    ensures NUL !in s
    ensures p < |b| ==> p + |s| < |b| && b[p + |s|] == NUL
  {
    if p < |b| then b[p..NulFrom(b, p)] else []
  }

  /** The C string a byte buffer without guaranteed terminator holds: everything before its first NUL. */
  function UpToNul(s: string): (r: string)
    ensures NUL !in r
    ensures |r| <= |s| && r == s[..|r|]
    ensures |r| < |s| ==> s[|r|] == NUL
  {
    if s == [] || s[0] == NUL then [] else [s[0]] + UpToNul(s[1..])
  }

  /** s with its leading d characters removed (what strtok skips before a token). */
  function StripLead(s: string, d: char): (r: string)
    ensures |r| <= |s|
    ensures r == [] || r[0] != d
  {
    if s != [] && s[0] == d then StripLead(s[1..], d) else s
  }

  /** Everything StripLead removes is the delimiter. */
  lemma StripLeadSkipsOnly(s: string, d: char)
    ensures forall k | 0 <= k < |s| - |StripLead(s, d)| :: s[k] == d
  {
    if s != [] && s[0] == d {
      StripLeadSkipsOnly(s[1..], d);
    }
  }

  /** StripLead leaves a suffix of its argument. */
  lemma StripLeadSuffix(s: string, d: char)
    ensures StripLead(s, d) == s[|s| - |StripLead(s, d)|..]
  {
    if s != [] && s[0] == d {
      StripLeadSuffix(s[1..], d);
    }
  }

  /** The longest prefix of s that does not contain d. */
  function CutAt(s: string, d: char): (r: string)
    ensures |r| <= |s|
    ensures d !in r
    ensures |r| < |s| ==> s[|r|] == d
  {
    if s == [] || s[0] == d then [] else [s[0]] + CutAt(s[1..], d)
  }

  /** CutAt leaves a prefix of its argument. */
  lemma CutAtPrefix(s: string, d: char)
    ensures CutAt(s, d) == s[..|CutAt(s, d)|]
  {
    if s != [] && s[0] != d {
      CutAtPrefix(s[1..], d);
      assert s == [s[0]] + s[1..];
    }
  }

  /** The first position at or after p that does not hold the delimiter d (strspn). */
  function SkipDelims(b: seq<char>, p: nat, d: char): (q: nat)
    requires Terminated(b) && p < |b| && d != NUL
    ensures p <= q < |b|
    ensures forall k | p <= k < q :: b[k] == d
    ensures b[q] != d
    decreases |b| - p
  {
    if b[p] == d then SkipDelims(b, p + 1, d) else p
  }

  /** The first position at or after p that holds d or NUL (strcspn). */
  function ScanTo(b: seq<char>, p: nat, d: char): (e: nat)
    requires Terminated(b) && p < |b| && d != NUL
    ensures p <= e < |b|
    ensures b[e] == d || b[e] == NUL
    ensures forall k | p <= k < e :: b[k] != d && b[k] != NUL
    decreases |b| - p
  {
    if b[p] == d || b[p] == NUL then p else ScanTo(b, p + 1, d)
  }

  /**
   * One strtok call: the token begins at `start`; `buf` is the buffer after
   * strtok wrote the NUL that ends the token; `save` is where the next call
   * with a NULL first argument resumes.
   */
  datatype Token = Token(start: nat, buf: seq<char>, save: nat)

  /**
   * strtok(b + p, d) for a one-character delimiter set, as glibc implements it:
   * leading delimiters are skipped; at end of string the result is NULL (None);
   * otherwise the token runs to the next delimiter, which is overwritten with NUL.
   */
  function Strtok(b: seq<char>, p: nat, d: char): (r: Option<Token>)
    requires Terminated(b) && p < |b| && d != NUL
    ensures r.Some? ==> Terminated(r.value.buf) && |r.value.buf| == |b|
    ensures r.Some? ==> p <= r.value.start < r.value.save < |b|
  {
    var q := SkipDelims(b, p, d);
    if b[q] == NUL then None
    else
      var e := ScanTo(b, q, d);
      if b[e] == NUL then Some(Token(q, b, e))
      else Some(Token(q, b[e := NUL], e + 1))
  }

  /** strspn over a buffer measures the leading delimiters of the C string there. */
  lemma SkipDelimsStrips(b: seq<char>, p: nat, d: char)
    requires Terminated(b) && p < |b| && d != NUL
    ensures SkipDelims(b, p, d) == p + |CStr(b, p)| - |StripLead(CStr(b, p), d)|
  {
    var s := CStr(b, p);
    var n := |s| - |StripLead(s, d)|;
    var q := SkipDelims(b, p, d);
    StripLeadSkipsOnly(s, d);
    StripLeadSuffix(s, d);
    assert s == b[p..p + |s|];
    assert b[p + n] != d by {
      if n < |s| {
        assert b[p + n] == s[n] == StripLead(s, d)[0];
      }
    }
    assert forall k | p <= k < p + n :: b[k] == s[k - p] == d;
    assert q <= p + n;
  }

  /** strcspn over a buffer measures the prefix of the C string there that avoids d. */
  lemma ScanToCuts(b: seq<char>, p: nat, d: char)
    requires Terminated(b) && p < |b| && d != NUL
    ensures ScanTo(b, p, d) == p + |CutAt(CStr(b, p), d)|
    ensures b[ScanTo(b, p, d)] == NUL <==> CutAt(CStr(b, p), d) == CStr(b, p)
  {
    var s := CStr(b, p);
    var c := CutAt(s, d);
    var e := ScanTo(b, p, d);
    CutAtPrefix(s, d);
    assert forall k | p <= k < p + |c| :: b[k] == c[k - p];
    assert b[p + |c|] == d || b[p + |c|] == NUL;
  }

  /** The terminator of the C string at p is the first NUL from p on. */
  lemma NulFromIsFirst(b: seq<char>, p: nat, x: nat)
    requires Terminated(b) && p <= x < |b| && b[x] == NUL
    requires forall k | p <= k < x :: b[k] != NUL
    ensures NulFrom(b, p) == x
  {
  }

  /** Writing NUL at position e cuts the C string at q < e short at e and starts a new one after it. */
  lemma CStrAfterWrite(b: seq<char>, q: nat, e: nat)
    requires Terminated(b) && q <= e < |b| - 1
    requires forall k | q <= k < e :: b[k] != NUL
    ensures CStr(b[e := NUL], q) == b[q..e]
    ensures CStr(b[e := NUL], e + 1) == CStr(b, e + 1)
  {
    var b' := b[e := NUL];
    NulFromIsFirst(b', q, e);
    assert b'[e + 1..] == b[e + 1..];
    NulFromIsFirst(b', e + 1, NulFrom(b, e + 1));
  }

  /** The C string at a later position q of the same string is a suffix of it. */
  lemma CStrSuffix(b: seq<char>, p: nat, q: nat)
    requires Terminated(b) && p <= q < |b|
    requires forall k | p <= k < q :: b[k] != NUL
    ensures CStr(b, q) == CStr(b, p)[q - p..]
  {
    NulFromIsFirst(b, q, NulFrom(b, p));
  }

  /** A token ended by a delimiter: strtok writes NUL on it and resumes after it. */
  lemma TokenCutByDelimiter(b: seq<char>, q: nat, d: char)
    requires Terminated(b) && q < |b| && d != NUL
    requires |CutAt(CStr(b, q), d)| < |CStr(b, q)|
    ensures var t := CStr(b, q); var w := CutAt(t, d); var e := ScanTo(b, q, d);
      && e == q + |w| && e < |b| - 1
      && CStr(b[e := NUL], q) == w && CStr(b[e := NUL], e + 1) == t[|w| + 1..]
  {
    var t := CStr(b, q);
    var w := CutAt(t, d);
    var e := ScanTo(b, q, d);
    ScanToCuts(b, q, d);
    CutAtPrefix(t, d);
    CStrAfterWrite(b, q, e);
    CStrSuffix(b, q, e + 1);
  }

  /** A token that runs to the end of the string: nothing is written and the next call finds nothing. */
  lemma TokenAtEnd(b: seq<char>, q: nat, d: char)
    requires Terminated(b) && q < |b| && d != NUL
    requires CutAt(CStr(b, q), d) == CStr(b, q)
    ensures var e := ScanTo(b, q, d);
      && e == q + |CStr(b, q)| && b[e] == NUL && CStr(b, e) == []
  {
    ScanToCuts(b, q, d);
    assert NulFrom(b, ScanTo(b, q, d)) == ScanTo(b, q, d);
  }

  /** The delimiters strtok skips end on a NUL exactly when the C string holds only delimiters. */
  lemma SkipDelimsReachesEnd(b: seq<char>, p: nat, d: char)
    requires Terminated(b) && p < |b| && d != NUL
    ensures b[SkipDelims(b, p, d)] == NUL <==> StripLead(CStr(b, p), d) == []
  {
    SkipDelimsStrips(b, p, d);
    var s := CStr(b, p);
    var t := StripLead(s, d);
    StripLeadSuffix(s, d);
    if t != [] {
      assert t[0] == s[|s| - |t|];
    }
  }

  /** strtok finds a token exactly when the C string holds a non-delimiter. */
  lemma StrtokFindsToken(b: seq<char>, p: nat, d: char)
    requires Terminated(b) && p < |b| && d != NUL
    ensures Strtok(b, p, d).None? <==> StripLead(CStr(b, p), d) == []
    ensures Strtok(b, p, d).Some? ==>
      && Strtok(b, p, d).value.start == SkipDelims(b, p, d)
      && CStr(b, SkipDelims(b, p, d)) == StripLead(CStr(b, p), d)
  {
    SkipDelimsReachesEnd(b, p, d);
    SkipDelimsStrips(b, p, d);
    StripLeadSuffix(CStr(b, p), d);
    CStrSuffix(b, p, SkipDelims(b, p, d));
  }

  /**
   * strtok only reads the C string at its start position.  When the token (the
   * first maximal run of non-delimiters after the leading delimiters) is
   * followed by a delimiter, the NUL goes on that delimiter and the next call
   * resumes on the rest of the string.
   */
  lemma StrtokCutsToken(b: seq<char>, p: nat, d: char)
    requires Terminated(b) && p < |b| && d != NUL
    requires |CutAt(StripLead(CStr(b, p), d), d)| < |StripLead(CStr(b, p), d)|
    ensures Strtok(b, p, d).Some?
    ensures var t := StripLead(CStr(b, p), d); var r := Strtok(b, p, d).value;
      r.start == p + |CStr(b, p)| - |t|
    ensures var w := CutAt(StripLead(CStr(b, p), d), d); var r := Strtok(b, p, d).value;
      r.buf == b[r.start + |w| := NUL] && r.save == r.start + |w| + 1
    ensures var w := CutAt(StripLead(CStr(b, p), d), d); var r := Strtok(b, p, d).value;
      CStr(r.buf, r.start) == w
    ensures var t := StripLead(CStr(b, p), d); var w := CutAt(t, d); var r := Strtok(b, p, d).value;
      CStr(r.buf, r.save) == t[|w| + 1..]
  {
    StrtokFindsToken(b, p, d);
    SkipDelimsStrips(b, p, d);
    var q := SkipDelims(b, p, d);
    ScanToCuts(b, q, d);
    TokenCutByDelimiter(b, q, d);
    StrtokAtDelimiter(b, p, d);
    var t := StripLead(CStr(b, p), d);
    var w := CutAt(t, d);
    var e := ScanTo(b, q, d);
    assert CStr(b, q) == t;
    assert CStr(b[e := NUL], e + 1) == t[|w| + 1..];
  }

  /** The strtok step that overwrites the delimiter ending the token. */
  lemma StrtokAtDelimiter(b: seq<char>, p: nat, d: char)
    requires Terminated(b) && p < |b| && d != NUL
    requires b[ScanTo(b, SkipDelims(b, p, d), d)] == d
    ensures var q := SkipDelims(b, p, d); var e := ScanTo(b, q, d);
      Strtok(b, p, d) == Some(Token(q, b[e := NUL], e + 1))
  {
  }

  /** A token that runs to the terminator: nothing is written and the next call finds nothing. */
  lemma StrtokLastToken(b: seq<char>, p: nat, d: char)
    requires Terminated(b) && p < |b| && d != NUL
    requires StripLead(CStr(b, p), d) != []
    requires CutAt(StripLead(CStr(b, p), d), d) == StripLead(CStr(b, p), d)
    ensures var t := StripLead(CStr(b, p), d); var r := Strtok(b, p, d);
      && r.Some?
      && r.value.start == p + |CStr(b, p)| - |t|
      && r.value.buf == b
      && r.value.save == r.value.start + |t|
      && CStr(r.value.buf, r.value.start) == t
      && CStr(r.value.buf, r.value.save) == []
  {
    StrtokFindsToken(b, p, d);
    SkipDelimsStrips(b, p, d);
    TokenAtEnd(b, SkipDelims(b, p, d), d);
  }

  /** Writing NUL past the terminator of the C string at x leaves that string alone. */
  lemma CStrWriteBeyond(b: seq<char>, x: nat, e: nat)
    requires Terminated(b) && x < |b| && x + |CStr(b, x)| < e < |b|
    ensures CStr(b[e := NUL], x) == CStr(b, x)
  {
    var b' := b[e := NUL];
    NulFromIsFirst(b', x, NulFrom(b, x));
    assert b'[x..NulFrom(b, x)] == b[x..NulFrom(b, x)];
  }

  /** Writing NUL before position x leaves the C string at x alone. */
  lemma CStrWriteBefore(b: seq<char>, x: nat, e: nat)
    requires Terminated(b) && e < x < |b|
    ensures CStr(b[e := NUL], x) == CStr(b, x)
  {
    var b' := b[e := NUL];
    NulFromIsFirst(b', x, NulFrom(b, x));
    assert b'[x..NulFrom(b, x)] == b[x..NulFrom(b, x)];
  }

  /** Two buffers of one length that agree everywhere outside positions lo..hi-1. */
  predicate AgreeOutside(b: seq<char>, b': seq<char>, lo: nat, hi: nat) {
    |b'| == |b| && forall i | 0 <= i < |b| && (i < lo || hi <= i) :: b'[i] == b[i]
  }

  /** A C string that lies wholly outside the positions where two buffers differ reads the same in both. */
  lemma CStrAgree(b: seq<char>, b': seq<char>, lo: nat, hi: nat, y: nat)
    requires Terminated(b) && Terminated(b') && AgreeOutside(b, b', lo, hi)
    requires y < |b| && (y + |CStr(b, y)| < lo || hi <= y)
    ensures CStr(b', y) == CStr(b, y)
  {
    var n := NulFrom(b, y);
    NulFromIsFirst(b', y, n);
    assert b'[y..n] == b[y..n];
  }

  /**
   * What one strtok call does, whichever way the token ends: the token is the
   * first run of non-delimiters of the C string at p.
   */
  lemma StrtokToken(b: seq<char>, p: nat, d: char)
    requires Terminated(b) && p < |b| && d != NUL
    ensures Strtok(b, p, d).None? <==> StripLead(CStr(b, p), d) == []
    ensures Strtok(b, p, d).Some? ==>
      var tk := Strtok(b, p, d).value; var t := StripLead(CStr(b, p), d);
      && tk.start == p + |CStr(b, p)| - |t|
      && CStr(tk.buf, tk.start) == CutAt(t, d)
    ensures Strtok(b, p, d).Some? ==>
      var tk := Strtok(b, p, d).value; var t := StripLead(CStr(b, p), d); var w := CutAt(t, d);
      |w| < |t| ==> CStr(tk.buf, tk.save) == t[|w| + 1..] && tk.save == tk.start + |w| + 1
  {
    StrtokFindsToken(b, p, d);
    var t := StripLead(CStr(b, p), d);
    if t != [] {
      var w := CutAt(t, d);
      CutAtPrefix(t, d);
      if |w| < |t| {
        StrtokCutsToken(b, p, d);
      } else {
        StrtokLastToken(b, p, d);
      }
    }
  }

  /** strtok changes the buffer at most inside the C string it starts on. */
  lemma StrtokFrame(b: seq<char>, p: nat, d: char)
    requires Terminated(b) && p < |b| && d != NUL
    ensures Strtok(b, p, d).Some? ==> AgreeOutside(b, Strtok(b, p, d).value.buf, p, p + |CStr(b, p)|)
  {
    StrtokToken(b, p, d);
    var t := StripLead(CStr(b, p), d);
    if t != [] && |CutAt(t, d)| < |t| {
      StrtokCutsToken(b, p, d);
    }
  }

  /** CutAt stops at the first d. */
  lemma {:induction false} CutAtFirst(x: string, s: string, d: char)
    requires d !in s && |s| < |x| && x[..|s|] == s && x[|s|] == d
    ensures CutAt(x, d) == s
    decreases |s|
  {
    if s != [] {
      CutAtFirst(x[1..], s[1..], d);
    }
  }

  /** A string without NUL is read whole as a C string. */
  lemma {:induction false} UpToNulWhole(s: string)
    requires NUL !in s
    ensures UpToNul(s) == s
  {
    if s != [] {
      UpToNulWhole(s[1..]);
    }
  }

  /** CutAt keeps a string without d whole. */
  lemma {:induction false} CutAtWhole(s: string, d: char)
    requires d !in s
    ensures CutAt(s, d) == s
  {
    if s != [] {
      CutAtWhole(s[1..], d);
    }
  }
}

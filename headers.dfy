/**
 * The header table of headers.c: an ordered list of (key, value) entries
 * with exact-match lookup (headers_find, headers_get), insert-or-overwrite
 * (headers_mod), and the parser of one "Key: value" header line
 * (headers_parse) that installs its result in the table.
 */
module Headers {
  import opened Wrappers
  import opened CStrings

  /** One entry of struct headers. */
  datatype Header = Header(key: string, value: string)

  /** No two entries share a key. */
  predicate DistinctKeys(hs: seq<Header>) {
    forall i, j | 0 <= i < j < |hs| :: hs[i].key != hs[j].key
  }

  /** The index of the first entry whose key equals key exactly, or -1 when there is none. */
  function IndexOf(hs: seq<Header>, key: string): (i: int)
    ensures -1 <= i < |hs|
    ensures i >= 0 ==> hs[i].key == key && forall j | 0 <= j < i :: hs[j].key != key
    ensures i == -1 <==> forall j | 0 <= j < |hs| :: hs[j].key != key
  {
    if hs == [] then -1
    else if hs[0].key == key then 0
    else
      var r := IndexOf(hs[1..], key);
      if r < 0 then -1 else r + 1
  }

  /** The value stored under key, or None (NULL) when the key is absent. */
  function Lookup(hs: seq<Header>, key: string): (r: Option<string>)
  {
    var i := IndexOf(hs, key);
    if i < 0 then None else Some(hs[i].value)
  }

  /** Lookup finds a value exactly when some entry carries the key, and then it is that entry's value. */
  lemma LookupFinds(hs: seq<Header>, key: string)
    ensures Lookup(hs, key).None? <==> forall j | 0 <= j < |hs| :: hs[j].key != key
    ensures Lookup(hs, key).Some? ==> Header(key, Lookup(hs, key).value) in hs
  {
  }

  /** With distinct keys, looking a key up yields v exactly when the entry (key, v) is in the table. */
  lemma LookupDistinct(hs: seq<Header>, key: string, v: string)
    requires DistinctKeys(hs)
    ensures Lookup(hs, key) == Some(v) <==> Header(key, v) in hs
  {
    if Header(key, v) in hs {
      var j :| 0 <= j < |hs| && hs[j] == Header(key, v);
      var i := IndexOf(hs, key);
      assert i == j;
    }
  }

  /** What headers_mod leaves in the table: key overwritten in place, or appended when absent. */
  function Upsert(hs: seq<Header>, key: string, value: string): (r: seq<Header>)
  {
    var i := IndexOf(hs, key);
    if i < 0 then hs + [Header(key, value)] else hs[i := Header(key, value)]
  }

  /** An absent key is appended at the end: the table grows by one and the earlier entries stay. */
  lemma UpsertAppends(hs: seq<Header>, key: string, value: string)
    requires IndexOf(hs, key) < 0
    ensures |Upsert(hs, key, value)| == |hs| + 1
    ensures Upsert(hs, key, value)[..|hs|] == hs
    ensures IndexOf(Upsert(hs, key, value), key) == |hs|
    ensures Upsert(hs, key, value)[|hs|] == Header(key, value)
  {
    var r := Upsert(hs, key, value);
    assert r[..|hs|] == hs;
    assert forall j | 0 <= j < |hs| :: r[j] == hs[j];
    assert r[|hs|].key == key;
  }

  /** A present key is overwritten in place: same length, same index, every other entry unchanged. */
  lemma UpsertOverwrites(hs: seq<Header>, key: string, value: string)
    requires IndexOf(hs, key) >= 0
    ensures |Upsert(hs, key, value)| == |hs|
    ensures IndexOf(Upsert(hs, key, value), key) == IndexOf(hs, key)
    ensures Upsert(hs, key, value)[IndexOf(hs, key)] == Header(key, value)
    ensures forall j | 0 <= j < |hs| && j != IndexOf(hs, key) :: Upsert(hs, key, value)[j] == hs[j]
  {
    var i := IndexOf(hs, key);
    var r := Upsert(hs, key, value);
    assert forall j | 0 <= j < i :: r[j] == hs[j];
    assert r[i].key == key;
  }

  /** After headers_mod the key reads back the new value, and every other key reads as before. */
  lemma UpsertLookup(hs: seq<Header>, key: string, value: string, other: string)
    ensures Lookup(Upsert(hs, key, value), key) == Some(value)
    ensures other != key ==> Lookup(Upsert(hs, key, value), other) == Lookup(hs, other)
  {
    var r := Upsert(hs, key, value);
    if IndexOf(hs, key) < 0 {
      UpsertAppends(hs, key, value);
      if other != key {
        var k := IndexOf(hs, other);
        if k >= 0 {
          assert r[k] == hs[k];
          assert IndexOf(r, other) == k;
        } else {
          assert IndexOf(r, other) == -1;
        }
      }
    } else {
      UpsertOverwrites(hs, key, value);
      if other != key {
        var k := IndexOf(hs, other);
        if k >= 0 {
          assert IndexOf(r, other) == k;
        } else {
          assert IndexOf(r, other) == -1;
        }
      }
    }
  }

  /** headers_mod keeps keys that were distinct distinct. */
  lemma UpsertDistinct(hs: seq<Header>, key: string, value: string)
    requires DistinctKeys(hs)
    ensures DistinctKeys(Upsert(hs, key, value))
  {
    if IndexOf(hs, key) < 0 {
      UpsertAppends(hs, key, value);
    } else {
      UpsertOverwrites(hs, key, value);
    }
  }

  /** Installing the same pair twice leaves the table as installing it once. */
  lemma UpsertIdempotent(hs: seq<Header>, key: string, value: string)
    ensures Upsert(Upsert(hs, key, value), key, value) == Upsert(hs, key, value)
  {
    var r := Upsert(hs, key, value);
    if IndexOf(hs, key) < 0 {
      UpsertAppends(hs, key, value);
    } else {
      UpsertOverwrites(hs, key, value);
    }
    assert r[IndexOf(r, key)] == Header(key, value);
    assert r[IndexOf(r, key) := Header(key, value)] == r;
  }

  /** A string made only of spaces (the empty string included). */
  predicate AllSpaces(s: string) {
    forall k | 0 <= k < |s| :: s[k] == ' '
  }

  /** n spaces. */
  function Spaces(n: nat): (s: string)
    ensures |s| == n && AllSpaces(s)
  {
    if n == 0 then [] else [' '] + Spaces(n - 1)
  }

  /** s with its trailing d characters removed. */
  function StripTrail(s: string, d: char): (r: string)
    ensures |r| <= |s|
    ensures r == [] || r[|r| - 1] != d
  {
    if s != [] && s[|s| - 1] == d then StripTrail(s[..|s| - 1], d) else s
  }

  /**
   * Lines 96-110: leading and trailing spaces are stripped from the value,
   * unless it holds no other character, in which case it is left as it is.
   */
  function TrimValue(v: string): (r: string)
  {
    if AllSpaces(v) then v else StripTrail(StripLead(v, ' '), ' ')
  }

  /** A value with a non-space character is its trimmed form framed by spaces on both sides. */
  lemma TrimValueFrames(v: string)
    requires !AllSpaces(v)
    ensures var r := TrimValue(v);
      && r != [] && r[0] != ' ' && r[|r| - 1] != ' '
      && exists n: nat, m: nat {:trigger Spaces(n), Spaces(m)} :: v == Spaces(n) + r + Spaces(m)
  {
    var t := StripLead(v, ' ');
    var n := |v| - |t|;
    StripLeadSuffix(v, ' ');
    StripLeadSkipsOnly(v, ' ');
    assert v == Spaces(n) + t;
    var r := StripTrail(t, ' ');
    var m := |t| - |r|;
    StripTrailPrefix(t, ' ');
    assert t == r + Spaces(m);
    assert v == Spaces(n) + r + Spaces(m);
  }

  /** StripTrail removes only trailing d characters. */
  lemma {:induction false} StripTrailPrefix(s: string, d: char)
    ensures var r := StripTrail(s, d);
      && r == s[..|r|]
      && forall k | |r| <= k < |s| :: s[k] == d
    decreases |s|
  {
    if s != [] && s[|s| - 1] == d {
      StripTrailPrefix(s[..|s| - 1], d);
    }
  }

  /** Trimming undoes framing with spaces: the inverse of TrimValueFrames. */
  lemma TrimValueUnframes(n: nat, r: string, m: nat)
    requires r != [] && r[0] != ' ' && r[|r| - 1] != ' '
    ensures TrimValue(Spaces(n) + r + Spaces(m)) == r
  {
    var v := Spaces(n) + r + Spaces(m);
    assert v[n] == r[0];
    StripLeadSpaces(n, r + Spaces(m));
    assert v == Spaces(n) + (r + Spaces(m));
    StripTrailSpaces(r, m);
  }

  /** StripLead on n spaces followed by a string not starting with a space. */
  lemma {:induction false} StripLeadSpaces(n: nat, s: string)
    requires s != [] && s[0] != ' '
    ensures StripLead(Spaces(n) + s, ' ') == s
  {
    if n > 0 {
      assert (Spaces(n) + s)[1..] == Spaces(n - 1) + s;
      StripLeadSpaces(n - 1, s);
    }
  }

  /** StripTrail on a string not ending in a space followed by m spaces. */
  lemma {:induction false} StripTrailSpaces(s: string, m: nat)
    requires s != [] && s[|s| - 1] != ' '
    ensures StripTrail(s + Spaces(m), ' ') == s
  {
    if m > 0 {
      var x := s + Spaces(m);
      assert x[|x| - 1] == ' ';
      assert Spaces(m) == Spaces(m - 1) + [' '] by {
        SpacesSplit(m);
      }
      assert x[..|x| - 1] == s + Spaces(m - 1);
      StripTrailSpaces(s, m - 1);
    }
    else {
      assert s + Spaces(0) == s;
    }
  }

  /** Spaces(m) seen from its end. */
  lemma SpacesSplit(m: nat)
    requires m > 0
    ensures Spaces(m) == Spaces(m - 1) + [' ']
  {
    assert AllSpaces(Spaces(m - 1) + [' ']);
  }

  /** Trimming twice trims no further. */
  lemma TrimValueIdempotent(v: string)
    ensures TrimValue(TrimValue(v)) == TrimValue(v)
  {
    if !AllSpaces(v) {
      TrimValueFrames(v);
      var r := TrimValue(v);
      TrimValueUnframes(0, r, 0);
      assert Spaces(0) + r + Spaces(0) == r;
    }
  }

  /** The three outcomes of headers_parse on one line. */
  datatype HeaderLine = HeaderEnd | HeaderMalformed | HeaderField(key: string, value: string)

  /**
   * headers_parse on the `length` bytes of a line, as a specification: an
   * empty line ends the header block; a line without ':' is malformed;
   * otherwise the key is the text before the first ':' and the value the
   * text after it, each read as a C string (strcpy and strlen stop at a NUL),
   * and the value is trimmed.
   */
  function ParseHeaderLine(line: seq<char>): (r: HeaderLine)
    ensures r.HeaderEnd? <==> line == []
    ensures r.HeaderMalformed? <==> line != [] && ':' !in line
    ensures r.HeaderField? ==> ':' !in r.key && NUL !in r.key
  {
    if line == [] then HeaderEnd
    else
      var k := CutAt(line, ':');
      CutAtPrefix(line, ':');
      if |k| == |line| then HeaderMalformed
      else HeaderField(UpToNul(k), TrimValue(UpToNul(line[|k| + 1..])))
  }

  /**
   * Reading back a header line built from a key, a value and spaces around
   * the value gives that key and value.
   */
  lemma ParseHeaderLineRoundTrip(key: string, value: string, n: nat, m: nat)
    requires ':' !in key && NUL !in key && NUL !in value
    requires value != [] && value[0] != ' ' && value[|value| - 1] != ' '
    ensures ParseHeaderLine(key + ":" + Spaces(n) + value + Spaces(m)) == HeaderField(key, value)
  {
    var rest := Spaces(n) + value + Spaces(m);
    Regroup(key + ":", Spaces(n), value, Spaces(m));
    assert NUL !in rest;
    TrimValueUnframes(n, value, m);
    ParseSplitLine(key, rest);
    UpToNulWhole(rest);
  }

  lemma Regroup(k: string, s: string, v: string, m: string)
    ensures k + s + v + m == k + (s + v + m)
  {
  }

  /** A line key + ":" + rest with no ':' or NUL in key parses to key and the trimmed C string of rest. */
  lemma ParseSplitLine(key: string, rest: string)
    requires ':' !in key && NUL !in key
    ensures ParseHeaderLine(key + ":" + rest) == HeaderField(key, TrimValue(UpToNul(rest)))
  {
    var line := key + ":" + rest;
    CutAtFirst(line, key, ':');
    assert line[|key| + 1..] == rest;
    UpToNulWhole(key);
  }

  /** What headers_parse returns: HEADERS_END, HEADERS_PARSE_ERROR, or the index the pair went to. */
  datatype ParseOutcome = End | ParseError | Installed(index: nat)

  /** struct headers: the entries in their order. */
  class HeaderTable {
    var entries: seq<Header>

    /** No two entries share a key (what headers_mod maintains). */
    predicate Valid()
      reads this
    {
      DistinctKeys(entries)
    }

    /** An empty table (`.number = 0`). */
    constructor()
      ensures entries == [] && Valid()
    {
      entries := [];
    }

    /** headers_find: a linear scan for the first entry with the key. */
    method Find(key: string) returns (index: int)
      ensures index == IndexOf(entries, key)
    {
      var i := 0;
      while i < |entries|
        invariant 0 <= i <= |entries|
        invariant forall j | 0 <= j < i :: entries[j].key != key
      {
        if entries[i].key == key {
          return i;
        }
        i := i + 1;
      }
      return -1;
    }

    /** headers_get: the value under key, or None for NULL. */
    method Get(key: string) returns (r: Option<string>)
      ensures r == Lookup(entries, key)
    {
      var index := Find(key);
      if index < 0 {
        return None;
      }
      return Some(entries[index].value);
    }

    /** headers_mod: overwrite the entry with the key in place, or append one; return its index. */
    method Mod(key: string, value: string) returns (index: nat)
      modifies this
      ensures entries == Upsert(old(entries), key, value)
      ensures index == IndexOf(entries, key)
      ensures old(Valid()) ==> Valid()
    {
      if Valid() {
        UpsertDistinct(entries, key, value);
      }
      UpsertLookup(entries, key, value, key);
      var i := Find(key);
      if i < 0 {
        UpsertAppends(entries, key, value);
        entries := entries + [Header(key, value)];
        index := |entries| - 1;
      } else {
        UpsertOverwrites(entries, key, value);
        entries := entries[i := Header(key, value)];
        index := i;
      }
    }

    /**
     * headers_parse: split the line at its first ':', copy the value into a
     * NUL-terminated buffer, trim it there, and install the pair with
     * headers_mod.  An empty line and a line without ':' leave the table alone.
     */
    method Parse(line: seq<char>) returns (r: ParseOutcome)
      modifies this
      ensures old(Valid()) ==> Valid()
      ensures match ParseHeaderLine(line)
        case HeaderEnd => r == End && entries == old(entries)
        case HeaderMalformed => r == ParseError && entries == old(entries)
        case HeaderField(k, v) => entries == Upsert(old(entries), k, v) && r.Installed? && r.index == IndexOf(entries, k)
    {
      if |line| == 0 {
        return End;
      }
      var found, colon := FindColon(line);
      if !found {
        return ParseError;
      }
      var key := UpToNul(line[..colon]);
      var value := CopyAndTrimValue(line[colon + 1..]);
      ghost var k := CutAt(line, ':');
      assert k == line[..colon] && |k| < |line|;
      var index := Mod(key, value);
      return Installed(index);
    }
  }

  /** Lines 63-70: the scan for the first ':' within the line's length. */
  method FindColon(line: seq<char>) returns (found: bool, colon: nat)
    ensures found <==> ':' in line
    ensures found ==> colon < |line| && CutAt(line, ':') == line[..colon]
  {
    colon := 0;
    while colon < |line|
      invariant 0 <= colon <= |line|
      invariant ':' !in line[..colon]
    {
      if line[colon] == ':' {
        CutAtFirst(line, line[..colon], ':');
        return true, colon;
      }
      colon := colon + 1;
    }
    assert line[..colon] == line;
    return false, 0;
  }

  /**
   * Lines 79-110: the value bytes are copied into a fresh buffer with a
   * terminator, trimmed there, and read back as the C string the buffer holds.
   */
  method CopyAndTrimValue(bytes: seq<char>) returns (value: string)
    ensures value == TrimValue(UpToNul(bytes))
  {
    var buf := new char[|bytes| + 1];
    var k := 0;
    while k < |bytes|
      invariant 0 <= k <= |bytes|
      invariant buf[..k] == bytes[..k]
    {
      buf[k] := bytes[k];
      k := k + 1;
    }
    buf[k] := NUL;
    assert buf[..] == bytes + [NUL];
    CStrOfBytes(bytes);
    TrimInPlace(buf);
    value := CStr(buf[..], 0);
  }

  /** The C string at the start of a buffer of bytes followed by NUL is those bytes up to their first NUL. */
  lemma CStrOfBytes(s: string)
    ensures Terminated(s + [NUL]) && CStr(s + [NUL], 0) == UpToNul(s)
  {
    var b := s + [NUL];
    var u := UpToNul(s);
    NulFromIsFirst(b, 0, |u|);
    assert b[0..|u|] == u;
  }

  /**
   * Lines 94-110 on the value buffer: find the first non-space, move the
   * string down over the leading spaces (memmove, with its terminator), then
   * end the string after the last non-space.  A value with no non-space
   * character is left untouched.
   */
  method TrimInPlace(value: array<char>)
    requires Terminated(value[..])
    modifies value
    ensures Terminated(value[..])
    ensures CStr(value[..], 0) == TrimValue(old(CStr(value[..], 0)))
  {
    var s := CStr(value[..], 0);
    var n := |s|;
    assert value[..n] == s && value[n] == NUL;
    var shift := FirstNonSpace(value, s);
    if shift == n {
      return;
    }
    var t := s[shift..];
    assert StripLead(s, ' ') == t by {
      StripLeadSpaces(shift, t);
      assert s == Spaces(shift) + t by {
        assert s[..shift] == Spaces(shift);
      }
    }
    if shift > 0 {
      ShiftDown(value, shift, n);
    }
    assert value[..n - shift] == t && value[n - shift] == NUL by {
      if shift > 0 {
        assert value[..n - shift + 1] == t + [NUL];
      }
    }
    EndAfterLastNonSpace(value, t);
  }

  /** Lines 96-101: the position of the first non-space character of the string s the buffer holds, or its length. */
  method FirstNonSpace(value: array<char>, s: string) returns (shift: nat)
    requires |s| < value.Length && value[..|s|] == s
    ensures shift <= |s| && AllSpaces(s[..shift])
    ensures shift < |s| ==> s[shift] != ' '
  {
    var i := 0;
    while i < |s|
      invariant 0 <= i <= |s|
      invariant AllSpaces(s[..i])
    {
      if value[i] != ' ' {
        return i;
      }
      i := i + 1;
    }
    return |s|;
  }

  /**
   * Lines 105-110 on a buffer holding the string t, which begins with a
   * non-space: NUL is written after its last non-space character.
   */
  method EndAfterLastNonSpace(value: array<char>, t: string)
    requires |t| < value.Length && value[..|t|] == t && value[|t|] == NUL && Terminated(value[..])
    requires t != [] && t[0] != ' ' && NUL !in t
    modifies value
    ensures Terminated(value[..])
    ensures CStr(value[..], 0) == StripTrail(t, ' ')
  {
    var j := |t| - 1;
    while j >= 0
      invariant -1 <= j < |t|
      invariant value[..] == old(value[..])
      invariant AllSpaces(t[j + 1..])
    {
      if value[j] != ' ' {
        value[j + 1] := NUL;
        TrimmedAt(t, j);
        assert value[..j + 1] == t[..j + 1];
        NulFromIsFirst(value[..], 0, j + 1);
        assert value[..][0..j + 1] == t[..j + 1];
        return;
      }
      j := j - 1;
    }
  }

  /** The trailing spaces of t begin after position j when t[j] is the last non-space. */
  lemma TrimmedAt(t: string, j: nat)
    requires j < |t| && t[j] != ' ' && AllSpaces(t[j + 1..])
    ensures StripTrail(t, ' ') == t[..j + 1]
  {
    var r := t[..j + 1];
    assert t == r + Spaces(|t| - j - 1) by {
      assert t[j + 1..] == Spaces(|t| - j - 1);
    }
    StripTrailSpaces(r, |t| - j - 1);
  }

  /** memmove(value, value + shift, n - shift + 1): copy the string and its terminator down by shift. */
  method ShiftDown(value: array<char>, shift: nat, n: nat)
    requires 0 < shift <= n < value.Length && value[n] == NUL
    modifies value
    ensures value[..n - shift + 1] == old(value[shift..n + 1])
    ensures value[n - shift + 1..] == old(value[n - shift + 1..])
  {
    var k := 0;
    while k < n - shift + 1
      invariant 0 <= k <= n - shift + 1
      invariant value[..k] == old(value[shift..shift + k])
      invariant value[k..] == old(value[k..])
    {
      value[k] := value[k + shift];
      k := k + 1;
    }
  }

  /** The first line of the header test: the value is trimmed on both sides. */
  lemma HeaderTestFirstLine(line: string)
    requires line == "test:  Hello World  "
    ensures ParseHeaderLine(line) == HeaderField("test", "Hello World")
  {
    assert Spaces(2) == "  ";
    assert line == "test" + ":" + Spaces(2) + "Hello World" + Spaces(2);
    ParseHeaderLineRoundTrip("test", "Hello World", 2, 2);
  }

  /** The third line of the header test: a single leading space is stripped. */
  lemma HeaderTestThirdLine(line: string)
    requires line == "test2: Hello World2"
    ensures ParseHeaderLine(line) == HeaderField("test2", "Hello World2")
  {
    assert Spaces(1) == " ";
    assert Spaces(0) == "";
    assert line == "test2" + ":" + Spaces(1) + "Hello World2" + Spaces(0);
    ParseHeaderLineRoundTrip("test2", "Hello World2", 1, 0);
  }

  /**
   * The table side of the header test: "test" goes to index 0, "test2" to
   * index 1, and "test" still reads "Hello World"; "blablabla" is malformed
   * and the empty line ends the block.
   */
  lemma HeaderTestTable()
    ensures ParseHeaderLine("blablabla") == HeaderMalformed
    ensures ParseHeaderLine("") == HeaderEnd
    ensures var t1 := Upsert([], "test", "Hello World");
      var t2 := Upsert(t1, "test2", "Hello World2");
      && IndexOf(t1, "test") == 0 && IndexOf(t2, "test2") == 1
      && Lookup(t2, "test") == Some("Hello World")
  {
    var t1 := Upsert([], "test", "Hello World");
    UpsertAppends([], "test", "Hello World");
    UpsertAppends(t1, "test2", "Hello World2");
    UpsertLookup(t1, "test2", "Hello World2", "test");
  }
}

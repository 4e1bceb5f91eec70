/**
 * The request-line parser of headers.c (`headers_metadata`): the line is split
 * destructively with strtok into method, target and version, the target is
 * cut at '#' and then at '?', and the method and version are looked up.
 *
 * The line is held in a NUL-terminated buffer exactly as the C code sees it,
 * so the model keeps strtok's behaviour on unusual targets: leading
 * delimiters are skipped, and a strtok that finds no token returns NULL,
 * which the C code then hands to strlen.
 */
module RequestLine {
  import opened Wrappers
  import opened CStrings

  /** The methods headers_metadata accepts (enum method). */
  datatype Method = Get | Post | Put

  /** The protocol versions it accepts (enum httpVersion). */
  datatype HttpVersion = Http10 | Http11

  /**
   * A parsed request line.  The C code stores only the method and the
   * version and allocates, but never fills, the path and query buffers;
   * `path` and `queryString` are the strings it measures to size them.
   */
  datatype MetaData = MetaData(httpMethod: Method, httpVersion: HttpVersion, path: string, queryString: string)

  /**
   * What a call returns: HEADERS_SUCCESS with metaData written,
   * HEADERS_PARSE_ERROR, or a NULL pointer passed to strlen (undefined
   * behaviour in the C code, a crash in practice).
   */
  datatype MetaResult = MetaOk(meta: MetaData) | MetaParseError | NullDereference

  /** The method named by a token; only GET, POST and PUT, matched exactly. */
  function MethodOf(s: string): (r: Option<Method>)
    ensures r.Some? <==> s == "GET" || s == "POST" || s == "PUT"
  {
    if s == "GET" then Some(Get)
    else if s == "POST" then Some(Post)
    else if s == "PUT" then Some(Put)
    else None
  }

  /** The version named by a token; only HTTP/1.0 and HTTP/1.1, matched exactly. */
  function VersionOf(s: string): (r: Option<HttpVersion>)
    ensures r.Some? <==> s == "HTTP/1.0" || s == "HTTP/1.1"
  {
    if s == "HTTP/1.0" then Some(Http10)
    else if s == "HTTP/1.1" then Some(Http11)
    else None
  }

  /**
   * The space-separated words of a string: runs of spaces separate words and
   * leading or trailing spaces produce none.
   */
  function Words(s: string): (ws: seq<string>)
    ensures forall w | w in ws :: w != [] && ' ' !in w
    decreases |s|
  {
    var t := StripLead(s, ' ');
    if t == [] then []
    else
      var w := CutAt(t, ' ');
      CutAtPrefix(t, ' ');
      [w] + Words(if |w| < |t| then t[|w| + 1..] else [])
  }

  /** Positions of the three tokens in the buffer after the four strtok calls. */
  datatype SplitLine = SplitLine(buf: seq<char>, methodAt: nat, targetAt: nat, versionAt: nat)

  /**
   * Lines 129-141: three strtok calls on " " must each find a token and a
   * fourth must find none.
   */
  function SplitTokens(line: string): (r: Option<SplitLine>)
    ensures r.Some? ==> Terminated(r.value.buf) && |r.value.buf| == |line| + 1
    ensures r.Some? ==> r.value.methodAt < r.value.targetAt < r.value.versionAt < |r.value.buf|
  {
    var b := line + [NUL];
    match Strtok(b, 0, ' ')
    case None => None
    case Some(m) =>
      match Strtok(m.buf, m.save, ' ')
      case None => None
      case Some(t) =>
        match Strtok(t.buf, t.save, ' ')
        case None => None
        case Some(v) =>
          if Strtok(v.buf, v.save, ' ').Some? then None
          else Some(SplitLine(v.buf, m.start, t.start, v.start))
  }

  /** The buffer after the target has been cut, where the path starts, and the query string. */
  datatype CutResult = CutResult(buf: seq<char>, pathAt: nat, query: string)

  /**
   * Lines 143-149: strtok on "#" from the target, then strtok on "?" from the
   * token it returned; the query string starts one past the end of the path
   * token when the hash token was longer than the path.  None stands for a
   * strtok that returned NULL.
   */
  function CutTarget(b: seq<char>, target: nat): (r: Option<CutResult>)
    requires Terminated(b) && target < |b|
    ensures r.Some? ==> Terminated(r.value.buf) && |r.value.buf| == |b| && r.value.pathAt < |b|
  {
    match Strtok(b, target, '#')
    case None => None
    case Some(h) => CutHashToken(h.buf, h.start)
  }

  /**
   * Lines 144-149, from the hash token at s: its length, strtok on "?", and
   * the query pointer one past the end of the path token when the hash token
   * was longer than the path.
   */
  function CutHashToken(c: seq<char>, s: nat): (r: Option<CutResult>)
    requires Terminated(c) && s < |c|
    ensures r.Some? ==> Terminated(r.value.buf) && |r.value.buf| == |c| && r.value.pathAt < |c|
  {
    var tmp := |CStr(c, s)|;
    match Strtok(c, s, '?')
    case None => None
    case Some(q) =>
      var path := CStr(q.buf, q.start);
      var query := if tmp > |path| then CStr(q.buf, q.start + |path| + 1) else "";
      Some(CutResult(q.buf, q.start, query))
  }

  /**
   * headers_metadata: the line as the NUL-terminated buffer the C code
   * receives.  The target is cut before the method and version are checked,
   * so a NULL from the cutting wins over a bad method.
   */
  function Metadata(line: string): (r: MetaResult)
  {
    match SplitTokens(line)
    case None => MetaParseError
    case Some(sp) =>
      match CutTarget(sp.buf, sp.targetAt)
      case None => NullDereference
      case Some(cut) =>
        Assemble(CStr(cut.buf, sp.methodAt), CStr(cut.buf, sp.versionAt), CStr(cut.buf, cut.pathAt), cut.query)
  }

  /** Lines 151-174: look up the method and the version, either of which can reject the line. */
  function Assemble(methodName: string, versionName: string, path: string, query: string): (r: MetaResult)
    ensures r != NullDereference
    ensures r.MetaOk? <==> MethodOf(methodName).Some? && VersionOf(versionName).Some?
    ensures r.MetaOk? ==> r.meta == MetaData(MethodOf(methodName).value, VersionOf(versionName).value, path, query)
  {
    match (MethodOf(methodName), VersionOf(versionName))
    case (Some(m), Some(v)) => MetaOk(MetaData(m, v, path, query))
    case _ => MetaParseError
  }

  /** The C string at the start of a buffer made from a line and its terminator is the line. */
  lemma LineBuffer(line: string)
    requires NUL !in line
    ensures Terminated(line + [NUL]) && CStr(line + [NUL], 0) == line
  {
    var b := line + [NUL];
    NulFromIsFirst(b, 0, |line|);
    assert b[0..|line|] == line;
  }

  /**
   * One strtok on " " takes the first word of the C string it starts on and
   * leaves the remaining words for the next call.  It writes at most one NUL,
   * right after the word, and it does write it when more words follow.
   */
  lemma StrtokWord(b: seq<char>, p: nat)
    requires Terminated(b) && p < |b|
    ensures Strtok(b, p, ' ').None? <==> Words(CStr(b, p)) == []
    ensures Strtok(b, p, ' ').Some? ==>
      var tk := Strtok(b, p, ' ').value; var w := CStr(tk.buf, tk.start);
      && p <= tk.start && tk.start + |w| < |b|
      && Words(CStr(b, p)) == [w] + Words(CStr(tk.buf, tk.save))
    ensures Strtok(b, p, ' ').Some? ==>
      var tk := Strtok(b, p, ' ').value; var w := CStr(tk.buf, tk.start);
      tk.buf == b || tk.buf == b[tk.start + |w| := NUL]
    ensures Strtok(b, p, ' ').Some? ==>
      var tk := Strtok(b, p, ' ').value; var w := CStr(tk.buf, tk.start);
      Words(CStr(tk.buf, tk.save)) != [] ==> tk.buf == b[tk.start + |w| := NUL] && tk.save == tk.start + |w| + 1
  {
    var t := StripLead(CStr(b, p), ' ');
    StrtokFindsToken(b, p, ' ');
    if t != [] {
      var w := CutAt(t, ' ');
      CutAtPrefix(t, ' ');
      if |w| < |t| {
        StrtokWordCut(b, p);
      } else {
        StrtokWordLast(b, p);
      }
    }
  }

  /** StrtokWord when the first word is followed by a space. */
  lemma StrtokWordCut(b: seq<char>, p: nat)
    requires Terminated(b) && p < |b|
    requires |CutAt(StripLead(CStr(b, p), ' '), ' ')| < |StripLead(CStr(b, p), ' ')|
    ensures Strtok(b, p, ' ').Some?
    ensures var tk := Strtok(b, p, ' ').value; var w := CStr(tk.buf, tk.start);
      && p <= tk.start && tk.start + |w| < |b|
      && tk.buf == b[tk.start + |w| := NUL] && tk.save == tk.start + |w| + 1
    ensures var tk := Strtok(b, p, ' ').value;
      Words(CStr(b, p)) == [CStr(tk.buf, tk.start)] + Words(CStr(tk.buf, tk.save))
  {
    var s := CStr(b, p);
    var t := StripLead(s, ' ');
    var w := CutAt(t, ' ');
    StrtokCutsToken(b, p, ' ');
    assert Words(s) == [w] + Words(t[|w| + 1..]);
  }

  /** StrtokWord when the first word runs to the terminator. */
  lemma StrtokWordLast(b: seq<char>, p: nat)
    requires Terminated(b) && p < |b|
    requires StripLead(CStr(b, p), ' ') != []
    requires CutAt(StripLead(CStr(b, p), ' '), ' ') == StripLead(CStr(b, p), ' ')
    ensures Strtok(b, p, ' ').Some?
    ensures var tk := Strtok(b, p, ' ').value; var w := CStr(tk.buf, tk.start);
      && p <= tk.start && tk.start + |w| < |b|
      && tk.buf == b && CStr(tk.buf, tk.save) == []
    ensures var tk := Strtok(b, p, ' ').value;
      Words(CStr(b, p)) == [CStr(tk.buf, tk.start)]
  {
    var s := CStr(b, p);
    var t := StripLead(s, ' ');
    StrtokLastToken(b, p, ' ');
    assert Words(s) == [t] + Words([]);
  }

  /**
   * Lines 129-141 accept exactly the lines of three words, and the three
   * pointers then read those words; each word's terminator lies before the
   * next word.
   */
  lemma SplitTokensWords(line: string)
    requires NUL !in line
    ensures SplitTokens(line).Some? <==> |Words(line)| == 3
    ensures SplitTokens(line).Some? ==>
      var sp := SplitTokens(line).value; var w := Words(line);
      && CStr(sp.buf, sp.methodAt) == w[0]
      && CStr(sp.buf, sp.targetAt) == w[1]
      && CStr(sp.buf, sp.versionAt) == w[2]
      && sp.methodAt + |w[0]| < sp.targetAt
      && sp.targetAt + |w[1]| < sp.versionAt
  {
    var b := line + [NUL];
    LineBuffer(line);
    StrtokWord(b, 0);
    var rm := Strtok(b, 0, ' ');
    if rm.Some? {
      var m := rm.value;
      StrtokWord(m.buf, m.save);
      var rt := Strtok(m.buf, m.save, ' ');
      if rt.Some? {
        var t := rt.value;
        StrtokWord(t.buf, t.save);
        StrtokKeepsEarlier(m.buf, m.save, m.start);
        var rv := Strtok(t.buf, t.save, ' ');
        if rv.Some? {
          var v := rv.value;
          StrtokWord(v.buf, v.save);
          StrtokKeepsEarlier(t.buf, t.save, m.start);
          StrtokKeepsEarlier(t.buf, t.save, t.start);
          ThreeHeads(Words(line), Words(CStr(m.buf, m.save)), Words(CStr(t.buf, t.save)), Words(CStr(v.buf, v.save)),
            CStr(m.buf, m.start), CStr(t.buf, t.start), CStr(v.buf, v.start));
        }
      }
    }
  }

  /** Three words taken off the front of a list one at a time are its first three elements. */
  lemma ThreeHeads(ws: seq<string>, ws1: seq<string>, ws2: seq<string>, ws3: seq<string>, w0: string, w1: string, w2: string)
    requires ws == [w0] + ws1 && ws1 == [w1] + ws2 && ws2 == [w2] + ws3
    ensures |ws| == 3 + |ws3| && ws[0] == w0 && ws[1] == w1 && ws[2] == w2
  {
  }

  /** strtok from p writes nothing into a C string that ends before p. */
  lemma StrtokKeepsEarlier(b: seq<char>, p: nat, x: nat)
    requires Terminated(b) && p < |b| && x + |CStr(b, x)| < p
    requires Strtok(b, p, ' ').Some?
    ensures CStr(Strtok(b, p, ' ').value.buf, x) == CStr(b, x)
  {
    StrtokFrame(b, p, ' ');
    CStrAgree(b, Strtok(b, p, ' ').value.buf, p, p + |CStr(b, p)|, x);
  }

  /** The token strtok(target, "#") returns: the first run of non-'#' characters. */
  function HashPart(t: string): (h: string)
  {
    CutAt(StripLead(t, '#'), '#')
  }

  /** The token strtok(hash, "?") then returns, the path the C code measures. */
  function PathPart(t: string): (p: string)
  {
    CutAt(StripLead(HashPart(t), '?'), '?')
  }

  /** The text after the first '?' of the hash token, or nothing when it has none. */
  function QueryPart(t: string): (q: string)
  {
    AfterFirst(HashPart(t), '?')
  }

  /** The text after the first d in s, or nothing when s has none. */
  function AfterFirst(s: string, d: char): (r: string)
  {
    var p := CutAt(s, d);
    if |p| < |s| then s[|p| + 1..] else []
  }

  /** Whether the hash token of a target begins with '?' (the case lines 146-148 mishandle). */
  predicate QueryFirst(t: string) {
    HashPart(t) != [] && HashPart(t)[0] == '?'
  }

  /** Lines 143-149 on the C string at x: a strtok returns NULL exactly when the hash token is empty or all '?'. */
  lemma CutTargetNull(b: seq<char>, x: nat)
    requires Terminated(b) && x < |b|
    ensures CutTarget(b, x).None? <==> StripLead(HashPart(CStr(b, x)), '?') == []
  {
    StrtokToken(b, x, '#');
    var rh := Strtok(b, x, '#');
    if rh.Some? {
      StrtokToken(rh.value.buf, rh.value.start, '?');
    }
  }

  /** The path pointer reads PathPart of the target, and the cutting writes only inside the target. */
  lemma CutTargetPath(b: seq<char>, x: nat)
    requires Terminated(b) && x < |b|
    ensures CutTarget(b, x).Some? ==>
      var c := CutTarget(b, x).value; var t := CStr(b, x);
      && CStr(c.buf, c.pathAt) == PathPart(t)
      && AgreeOutside(b, c.buf, x, x + |t|)
  {
    var t := CStr(b, x);
    StrtokToken(b, x, '#');
    var rh := Strtok(b, x, '#');
    StrtokFrame(b, x, '#');
    if rh.Some? {
      var h := rh.value;
      StrtokToken(h.buf, h.start, '?');
      StrtokFrame(h.buf, h.start, '?');
    }
  }

  /** CutTarget when strtok on "#" finds a token: the rest works on that token. */
  lemma CutTargetIsHash(b: seq<char>, x: nat)
    requires Terminated(b) && x < |b|
    requires Strtok(b, x, '#').Some?
    ensures var h := Strtok(b, x, '#').value; CutTarget(b, x) == CutHashToken(h.buf, h.start)
  {
  }

  /** CutHashToken when strtok on "?" finds a token. */
  lemma CutHashTokenShape(c: seq<char>, s: nat)
    requires Terminated(c) && s < |c|
    requires Strtok(c, s, '?').Some?
    ensures var q := Strtok(c, s, '?').value; var path := CStr(q.buf, q.start);
      CutHashToken(c, s) == Some(CutResult(q.buf, q.start,
        if |CStr(c, s)| > |path| then CStr(q.buf, q.start + |path| + 1) else ""))
  {
  }

  /** When the hash token does not begin with '?', the query pointer reads QueryPart of the target. */
  lemma CutTargetQuery(b: seq<char>, x: nat)
    requires Terminated(b) && x < |b|
    requires HashPart(CStr(b, x)) != [] && !QueryFirst(CStr(b, x))
    ensures CutTarget(b, x).Some? && CutTarget(b, x).value.query == QueryPart(CStr(b, x))
  {
    StrtokToken(b, x, '#');
    var h := Strtok(b, x, '#').value;
    assert CStr(h.buf, h.start) == HashPart(CStr(b, x));
    CutTargetIsHash(b, x);
    HashTokenQuery(h.buf, h.start);
  }

  /** Lines 144-149 on a hash token that does not begin with '?': the query is what follows its first '?'. */
  lemma HashTokenQuery(c: seq<char>, s: nat)
    requires Terminated(c) && s < |c| && CStr(c, s) != [] && CStr(c, s)[0] != '?'
    ensures CutHashToken(c, s).Some? && CutHashToken(c, s).value.query == AfterFirst(CStr(c, s), '?')
  {
    QueryAfterPath(c, s);
    CutHashTokenShape(c, s);
  }

  /**
   * strtok(h, "?") on a hash token h that does not begin with '?': the query
   * pointer of line 148 reads the text after the first '?' of h.
   */
  lemma QueryAfterPath(c: seq<char>, s: nat)
    requires Terminated(c) && s < |c| && CStr(c, s) != [] && CStr(c, s)[0] != '?'
    ensures Strtok(c, s, '?').Some?
    ensures var q := Strtok(c, s, '?').value; var h := CStr(c, s);
      var path := CStr(q.buf, q.start);
      (if |h| > |path| then CStr(q.buf, q.start + |path| + 1) else "") == AfterFirst(h, '?')
  {
    var h := CStr(c, s);
    assert StripLead(h, '?') == h;
    StrtokToken(c, s, '?');
  }

  /**
   * headers_metadata on a line: it is rejected unless it has exactly three
   * words; with three words it dereferences NULL exactly when the target's
   * hash token is empty or all '?'; otherwise it succeeds exactly when the
   * first word is a known method and the third a known version, and then
   * records them with the path and, for targets whose hash token does not
   * begin with '?', the query string.
   */
  lemma MetadataSpec(line: string)
    requires NUL !in line
    ensures |Words(line)| != 3 ==> Metadata(line) == MetaParseError
    ensures |Words(line)| == 3 ==>
      (Metadata(line) == NullDereference <==> StripLead(HashPart(Words(line)[1]), '?') == [])
    ensures |Words(line)| == 3 && StripLead(HashPart(Words(line)[1]), '?') != [] ==>
      (Metadata(line).MetaOk? <==> MethodOf(Words(line)[0]).Some? && VersionOf(Words(line)[2]).Some?)
    ensures Metadata(line).MetaOk? ==>
      var w := Words(line); var m := Metadata(line).meta;
      && |w| == 3
      && Some(m.httpMethod) == MethodOf(w[0])
      && Some(m.httpVersion) == VersionOf(w[2])
      && m.path == PathPart(w[1])
      && (!QueryFirst(w[1]) ==> m.queryString == QueryPart(w[1]))
  {
    SplitTokensWords(line);
    var rs := SplitTokens(line);
    if rs.Some? {
      var sp := rs.value;
      var w := Words(line);
      CutTargetNull(sp.buf, sp.targetAt);
      CutTargetPath(sp.buf, sp.targetAt);
      var rc := CutTarget(sp.buf, sp.targetAt);
      if rc.None? {
        assert Metadata(line) == NullDereference;
      } else {
        var cut := rc.value;
        CStrAgree(sp.buf, cut.buf, sp.targetAt, sp.targetAt + |w[1]|, sp.methodAt);
        CStrAgree(sp.buf, cut.buf, sp.targetAt, sp.targetAt + |w[1]|, sp.versionAt);
        if !QueryFirst(w[1]) {
          CutTargetQuery(sp.buf, sp.targetAt);
        }
        assert Metadata(line) == Assemble(w[0], w[2], PathPart(w[1]), cut.query);
      }
    }
  }

  /** A request target split as the C code evidently intends: the fragment dropped, then path and query at the first '?'. */
  datatype Target = Target(path: string, query: string)

  /** The intended reading of a target: everything before '#', split at its first '?'. */
  function SplitTarget(t: string): (r: Target)
    ensures '?' !in r.path && '#' !in r.path && '#' !in r.query
    ensures var base := CutAt(t, '#');
      if '?' in base then base == r.path + "?" + r.query else base == r.path && r.query == []
  {
    var base := CutAt(t, '#');
    CutAtPrefix(t, '#');
    CutAtPrefix(base, '?');
    var p := CutAt(base, '?');
    assert |p| < |base| ==> base == p + "?" + base[|p| + 1..];
    Target(p, AfterFirst(base, '?'))
  }

  /** headers_metadata as evidently intended: the same word and name checks, with the target split by SplitTarget. */
  function MetadataIntended(line: string): (r: MetaResult)
    ensures r != NullDereference
    ensures r.MetaOk? <==> |Words(line)| == 3 && MethodOf(Words(line)[0]).Some? && VersionOf(Words(line)[2]).Some?
  {
    var w := Words(line);
    if |w| != 3 then MetaParseError
    else
      var tg := SplitTarget(w[1]);
      Assemble(w[0], w[2], tg.path, tg.query)
  }

  /** Reading back a target built from a path, a query and a fragment gives the path and the query. */
  lemma SplitTargetRoundTrip(path: string, query: string, fragment: string)
    requires '?' !in path && '#' !in path && '#' !in query
    ensures SplitTarget(path + "?" + query + "#" + fragment) == Target(path, query)
  {
    var t := path + "?" + query + "#" + fragment;
    CutAtFirst(t, path + "?" + query, '#');
    CutAtFirst(path + "?" + query, path, '?');
  }

  /** A target without a query and fragment reads back as the whole path with an empty query. */
  lemma SplitTargetPlainPath(path: string)
    requires '?' !in path && '#' !in path
    ensures SplitTarget(path) == Target(path, [])
  {
    CutAtWhole(path, '#');
    CutAtWhole(path, '?');
  }

  /**
   * For every three-word line whose target begins with neither '#' nor '?',
   * the as-written parser and the intended one agree.
   */
  lemma MetadataAgreesWithIntended(line: string)
    requires NUL !in line
    requires |Words(line)| == 3 ==> Words(line)[1][0] != '#' && Words(line)[1][0] != '?'
    ensures Metadata(line) == MetadataIntended(line)
  {
    MetadataSpec(line);
    var w := Words(line);
    if |w| == 3 {
      var t := w[1];
      assert StripLead(t, '#') == t;
      var base := CutAt(t, '#');
      assert HashPart(t) == base && base[0] == t[0];
      assert StripLead(base, '?') == base;
      assert PathPart(t) == SplitTarget(t).path;
      assert QueryPart(t) == SplitTarget(t).query;
    }
  }

  /**
   * As written, a target made only of '#' makes the second strtok return
   * NULL, which the C code then measures; the intended parser reads an empty
   * path instead.
   */
  lemma HashOnlyTargetDereferencesNull(a: string, t: string, v: string)
    requires a != [] && v != [] && ' ' !in a && ' ' !in v && NUL !in a && NUL !in v
    requires t != [] && forall k | 0 <= k < |t| :: t[k] == '#'
    ensures Metadata(a + " " + t + " " + v) == NullDereference
    ensures MetadataIntended(a + " " + t + " " + v) == Assemble(a, v, "", "")
  {
    var line := a + " " + t + " " + v;
    assert ' ' !in t && NUL !in t;
    assert NUL !in line;
    ThreeWords(line, a, t, v);
    StripLeadAll(t, '#');
    MetadataSpec(line);
    assert CutAt(t, '#') == [];
  }

  /**
   * As written, for a target "#" + x the first strtok skips the leading '#'
   * and returns x, so the code records x as the path of what is only a
   * fragment; the intended parser drops everything after '#' and reads an
   * empty path.
   */
  lemma LeadingFragmentReadsPath(a: string, x: string, v: string)
    requires a != [] && v != [] && ' ' !in a && ' ' !in v && NUL !in a && NUL !in v
    requires x != [] && ' ' !in x && NUL !in x && '?' !in x && '#' !in x
    ensures Metadata(a + " " + ("#" + x) + " " + v) == Assemble(a, v, x, "")
    ensures MetadataIntended(a + " " + ("#" + x) + " " + v) == Assemble(a, v, "", "")
  {
    var t := "#" + x;
    var line := a + " " + t + " " + v;
    assert ' ' !in t && NUL !in t;
    assert NUL !in line;
    ThreeWords(line, a, t, v);
    FragmentParts(x);
    MetadataSpec(line);
  }

  /** The hash token, path and query the C code reads from "#" + x, and the intended split of it. */
  lemma FragmentParts(x: string)
    requires x != [] && '?' !in x && '#' !in x
    ensures HashPart("#" + x) == x && PathPart("#" + x) == x
    ensures !QueryFirst("#" + x) && QueryPart("#" + x) == []
    ensures SplitTarget("#" + x) == Target([], [])
  {
    var t := "#" + x;
    assert StripLead(t, '#') == StripLead(x, '#') == x;
    CutAtWhole(x, '#');
    assert StripLead(x, '?') == x;
    CutAtWhole(x, '?');
    assert CutAt(t, '#') == [];
  }

  /** A string made only of d is stripped to nothing. */
  lemma {:induction false} StripLeadAll(s: string, d: char)
    requires forall k | 0 <= k < |s| :: s[k] == d
    ensures StripLead(s, d) == []
  {
    if s != [] {
      StripLeadAll(s[1..], d);
    }
  }

  /**
   * As written, for a target "?" + x the query pointer is computed one past
   * the terminator of the path token x, which on a single-spaced line is the
   * start of the version word: the query string reads the version.
   */
  lemma LeadingQueryReadsVersion(a: string, x: string, v: string)
    requires a != [] && v != [] && ' ' !in a && ' ' !in v && NUL !in a && NUL !in v
    requires x != [] && ' ' !in x && NUL !in x && '?' !in x && '#' !in x
    ensures Metadata(a + " " + ("?" + x) + " " + v) == Assemble(a, v, x, v)
  {
    var t := "?" + x;
    assert ' ' !in t && NUL !in t;
    SingleSpacedLine(a, t, v);
    LeadingQueryLine(a + " " + t + " " + v, a, t, x, v);
  }

  /** LeadingQueryReadsVersion for a line whose words strtok has found where they stand. */
  lemma LeadingQueryLine(line: string, a: string, t: string, x: string, v: string)
    requires t == "?" + x && x != [] && '?' !in x && '#' !in x
    requires SplitTokens(line).Some?
    requires var sp := SplitTokens(line).value;
      && sp.methodAt == 0 && sp.targetAt == |a| + 1 && sp.versionAt == |a| + |t| + 2
      && Terminated(sp.buf) && sp.versionAt < |sp.buf|
      && CStr(sp.buf, sp.methodAt) == a && CStr(sp.buf, sp.targetAt) == t && CStr(sp.buf, sp.versionAt) == v
    ensures Metadata(line) == Assemble(a, v, x, v)
  {
    var sp := SplitTokens(line).value;
    LeadingQueryOnBuffer(sp.buf, sp.targetAt, sp.versionAt, x, v);
    MetadataOfCut(line, sp, CutResult(sp.buf, sp.targetAt + 1, v));
  }

  /** The intended parser reads the target "?" + x as an empty path with the query x. */
  lemma LeadingQueryIntended(a: string, x: string, v: string)
    requires a != [] && v != [] && ' ' !in a && ' ' !in v
    requires x != [] && ' ' !in x && '?' !in x && '#' !in x
    ensures MetadataIntended(a + " " + ("?" + x) + " " + v) == Assemble(a, v, "", x)
  {
    var t := "?" + x;
    CutAtWhole(t, '#');
    assert SplitTarget(t) == Target("", x);
    ThreeWords(a + " " + t + " " + v, a, t, v);
  }

  /** Lines 143-149 on a target "?" + x followed, after its terminator, by the C string v. */
  lemma LeadingQueryOnBuffer(c: seq<char>, p: nat, q: nat, x: string, v: string)
    requires Terminated(c) && q == p + |x| + 2 && q < |c|
    requires x != [] && '?' !in x && '#' !in x
    requires CStr(c, p) == "?" + x && CStr(c, q) == v
    ensures CutTarget(c, p) == Some(CutResult(c, p + 1, v))
    ensures CStr(c, p + 1) == x
  {
    CStrSuffix(c, p, p + 1);
    CutTargetLeadingQuery(c, p, x);
  }

  /** A line of three words separated by single spaces: where strtok leaves them and what they read. */
  lemma SingleSpacedLine(a: string, t: string, v: string)
    requires a != [] && t != [] && v != [] && ' ' !in a && ' ' !in t && ' ' !in v
    requires NUL !in a && NUL !in t && NUL !in v
    ensures SplitTokens(a + " " + t + " " + v).Some?
    ensures var sp := SplitTokens(a + " " + t + " " + v).value;
      && sp.methodAt == 0 && sp.targetAt == |a| + 1 && sp.versionAt == |a| + |t| + 2
      && Terminated(sp.buf) && sp.versionAt < |sp.buf|
      && CStr(sp.buf, sp.methodAt) == a && CStr(sp.buf, sp.targetAt) == t && CStr(sp.buf, sp.versionAt) == v
  {
    var line := a + " " + t + " " + v;
    SingleSpacedPositions(a, t, v);
    ThreeWords(line, a, t, v);
    SplitTokensWords(line);
  }

  /** headers_metadata assembled from what the splitting and the cutting returned. */
  lemma MetadataOfCut(line: string, sp: SplitLine, cut: CutResult)
    requires SplitTokens(line) == Some(sp)
    requires CutTarget(sp.buf, sp.targetAt) == Some(cut)
    ensures Metadata(line) == Assemble(CStr(cut.buf, sp.methodAt), CStr(cut.buf, sp.versionAt), CStr(cut.buf, cut.pathAt), cut.query)
  {
  }

  /** The two strtok calls of lines 143-145 on a target "?" + x that holds no other '?' or '#'. */
  lemma CutTargetLeadingQuery(c: seq<char>, p: nat, x: string)
    requires Terminated(c) && p + |x| + 2 < |c|
    requires x != [] && '?' !in x && '#' !in x
    requires CStr(c, p) == "?" + x
    ensures CutTarget(c, p) == Some(CutResult(c, p + 1, CStr(c, p + |x| + 2)))
  {
    CutTargetWithoutHash(c, p);
    LeadingQueryToken(c, p, x);
  }

  /** A target without '#': strtok on "#" returns it whole and writes nothing. */
  lemma CutTargetWithoutHash(c: seq<char>, p: nat)
    requires Terminated(c) && p < |c|
    requires CStr(c, p) != [] && '#' !in CStr(c, p)
    ensures CutTarget(c, p) == CutHashToken(c, p)
  {
    var t := CStr(c, p);
    assert StripLead(t, '#') == t;
    CutAtWhole(t, '#');
    StrtokLastToken(c, p, '#');
  }

  /** Lines 144-149 on a hash token "?" + x: the path is x and the query pointer lands past x's terminator. */
  lemma LeadingQueryToken(c: seq<char>, p: nat, x: string)
    requires Terminated(c) && p + |x| + 2 < |c|
    requires x != [] && '?' !in x
    requires CStr(c, p) == "?" + x
    ensures CutHashToken(c, p) == Some(CutResult(c, p + 1, CStr(c, p + |x| + 2)))
  {
    LeadingQueryStrtok(c, p, x);
    CutHashTokenLast(c, p, |x|, Token(p + 1, c, p + 1 + |x|), p + |x| + 2);
  }

  /** strtok(h, "?") on a hash token "?" + x: the token is x, one past the start, and nothing is written. */
  lemma LeadingQueryStrtok(c: seq<char>, p: nat, x: string)
    requires Terminated(c) && p + |x| + 2 < |c|
    requires x != [] && '?' !in x
    requires CStr(c, p) == "?" + x
    ensures Strtok(c, p, '?') == Some(Token(p + 1, c, p + 1 + |x|))
    ensures |CStr(c, p)| == |x| + 1 && CStr(c, p + 1) == x
  {
    var s := "?" + x;
    assert s[1..] == x;
    assert StripLead(x, '?') == x;
    assert StripLead(s, '?') == x;
    CutAtWhole(x, '?');
    StrtokLastToken(c, p, '?');
  }

  /** Lines 144-149 when strtok on "?" skips one '?' and returns the n characters after it whole. */
  lemma CutHashTokenLast(c: seq<char>, p: nat, n: nat, q: Token, e: nat)
    requires Terminated(c) && p + n + 2 < |c| && e == p + n + 2
    requires Strtok(c, p, '?') == Some(q) && q.start == p + 1 && q.buf == c
    requires |CStr(c, p)| == n + 1 && |CStr(c, p + 1)| == n
    ensures CutHashToken(c, p) == Some(CutResult(c, p + 1, CStr(c, e)))
  {
    CutHashTokenLong(c, p, q);
    assert q.start + |CStr(q.buf, q.start)| + 1 == e;
  }

  /** Lines 144-149 when the hash token is longer than the path: the query starts one past the path's end. */
  lemma CutHashTokenLong(c: seq<char>, s: nat, q: Token)
    requires Terminated(c) && s < |c|
    requires Strtok(c, s, '?') == Some(q) && |CStr(c, s)| > |CStr(q.buf, q.start)|
    ensures CutHashToken(c, s) == Some(CutResult(q.buf, q.start, CStr(q.buf, q.start + |CStr(q.buf, q.start)| + 1)))
  {
    CutHashTokenShape(c, s);
  }


  /** On a line of three words separated by single spaces, strtok finds them where they stand. */
  lemma SingleSpacedPositions(a: string, t: string, v: string)
    requires a != [] && t != [] && v != [] && ' ' !in a && ' ' !in t && ' ' !in v
    requires NUL !in a && NUL !in t && NUL !in v
    ensures SplitTokens(a + " " + t + " " + v).Some?
    ensures var sp := SplitTokens(a + " " + t + " " + v).value;
      sp.methodAt == 0 && sp.targetAt == |a| + 1 && sp.versionAt == |a| + |t| + 2
  {
    var line := a + " " + t + " " + v;
    assert SplitTokens(line).Some? by {
      LineBuffer(line);
      ThreeWords(line, a, t, v);
      SplitTokensWords(line);
    }
    SingleSpacedStrtoks(a, t, v);
    SplitTokensShape(line);
  }

  /** The first three strtok calls on a single-spaced line of three words. */
  lemma SingleSpacedStrtoks(a: string, t: string, v: string)
    requires a != [] && t != [] && v != [] && ' ' !in a && ' ' !in t && ' ' !in v
    requires NUL !in a && NUL !in t && NUL !in v
    ensures var b := a + " " + t + " " + v + [NUL];
      && Strtok(b, 0, ' ').Some? && Strtok(b, 0, ' ').value.start == 0
      && var m := Strtok(b, 0, ' ').value;
      && Strtok(m.buf, m.save, ' ').Some? && Strtok(m.buf, m.save, ' ').value.start == |a| + 1
      && var tk := Strtok(m.buf, m.save, ' ').value;
      && Strtok(tk.buf, tk.save, ' ').Some? && Strtok(tk.buf, tk.save, ' ').value.start == |a| + |t| + 2
  {
    var line := a + " " + t + " " + v;
    LineBuffer(line);
    assert line == a + " " + (t + " " + v);
    StrtokThreeWords(line + [NUL], a, t, v);
  }

  /** Three strtok calls on " " over a C string of three words separated by single spaces. */
  lemma StrtokThreeWords(b: seq<char>, a: string, t: string, v: string)
    requires Terminated(b) && 0 < |b|
    requires a != [] && t != [] && v != [] && ' ' !in a && ' ' !in t && ' ' !in v
    requires CStr(b, 0) == a + " " + (t + " " + v)
    ensures && Strtok(b, 0, ' ').Some? && Strtok(b, 0, ' ').value.start == 0
      && var m := Strtok(b, 0, ' ').value;
      && Strtok(m.buf, m.save, ' ').Some? && Strtok(m.buf, m.save, ' ').value.start == |a| + 1
      && var tk := Strtok(m.buf, m.save, ' ').value;
      && Strtok(tk.buf, tk.save, ' ').Some? && Strtok(tk.buf, tk.save, ' ').value.start == |a| + |t| + 2
  {
    StrtokNextWord(b, 0, a, t + " " + v);
    var m := Strtok(b, 0, ' ').value;
    StrtokNextWord(m.buf, m.save, t, v);
    var tk := Strtok(m.buf, m.save, ' ').value;
    StrtokLastWord(tk.buf, tk.save, v);
  }

  /** strtok on " " over a C string that is one word returns that word where it stands. */
  lemma StrtokLastWord(b: seq<char>, p: nat, w: string)
    requires Terminated(b) && p < |b|
    requires w != [] && ' ' !in w && CStr(b, p) == w
    ensures Strtok(b, p, ' ').Some? && Strtok(b, p, ' ').value.start == p
  {
    assert StripLead(w, ' ') == w;
    StrtokToken(b, p, ' ');
  }

  /** Where SplitTokens says the words start: where the first three strtok calls returned them. */
  lemma SplitTokensShape(line: string)
    requires SplitTokens(line).Some?
    ensures var m := Strtok(line + [NUL], 0, ' ').value;
      var tk := Strtok(m.buf, m.save, ' ').value;
      var v := Strtok(tk.buf, tk.save, ' ').value;
      SplitTokens(line).value == SplitLine(v.buf, m.start, tk.start, v.start)
  {
  }


  /** strtok on " " over a C string w + " " + rest with w a non-empty word takes w and resumes on rest. */
  lemma StrtokNextWord(b: seq<char>, p: nat, w: string, rest: string)
    requires Terminated(b) && p < |b|
    requires w != [] && ' ' !in w && CStr(b, p) == w + " " + rest
    ensures Strtok(b, p, ' ').Some?
    ensures var tk := Strtok(b, p, ' ').value;
      tk.start == p && tk.save == p + |w| + 1 && CStr(tk.buf, tk.save) == rest
  {
    var s := w + " " + rest;
    assert StripLead(s, ' ') == s;
    CutAtFirst(s, w, ' ');
    assert s[|w| + 1..] == rest;
    StrtokToken(b, p, ' ');
  }

  /** The words of a line made of three words separated by single spaces. */
  lemma ThreeWords(line: string, a: string, t: string, v: string)
    requires a != [] && t != [] && v != [] && ' ' !in a && ' ' !in t && ' ' !in v
    requires line == a + " " + t + " " + v
    ensures Words(line) == [a, t, v]
  {
    var r1 := t + " " + v;
    assert line == a + " " + r1;
    WordsCons(line, a, r1);
    WordsCons(r1, t, v);
    WordsSingle(v);
  }

  /** A word followed by one space: it is the first word, and the rest follow. */
  lemma WordsCons(s: string, w: string, rest: string)
    requires w != [] && ' ' !in w && s == w + " " + rest
    ensures Words(s) == [w] + Words(rest)
  {
    assert StripLead(s, ' ') == s;
    CutAtFirst(s, w, ' ');
    assert s[|w| + 1..] == rest;
  }

  /** A single word is its own list of words. */
  lemma WordsSingle(v: string)
    requires v != [] && ' ' !in v
    ensures Words(v) == [v]
  {
    assert StripLead(v, ' ') == v;
    CutAtWhole(v, ' ');
    assert Words(v) == [v] + Words([]);
  }
}

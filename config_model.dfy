/**
 * The configuration language of config.c (`config_parse`) at the level of
 * tokens: the configuration tree it builds, the states of its parser, and
 * the transition each token causes.
 *
 * The C parser keeps pointers to the bind, site and handler it is filling
 * in; each of them is always the one appended last, so here the "current"
 * entry is the last element of the enclosing list.
 */
module ConfigModel {
  import opened Wrappers
  import opened CStrings

  /** FILE_HANDLER_NO and CGI_HANDLER_NO; a handler whose type was never set has None. */
  datatype HandlerType = FileHandler | CgiHandler

  /**
   * struct config_handler: its directory, its type, the index files of a
   * file handler, and the document root the validation pass copies into
   * its settings (None until then).
   */
  datatype Handler = Handler(dir: string, handlerType: Option<HandlerType>, indexFiles: seq<string>, documentRoot: Option<string>)

  /** struct config_site: host names and aliases in order, the document root, the handlers in order. */
  datatype Site = Site(hostnames: seq<string>, root: Option<string>, handlers: seq<Handler>)

  /** struct ssl_settings: private key and certificate file names. */
  datatype Ssl = Ssl(key: Option<string>, cert: Option<string>)

  /** struct config_bind: listening address and port, optional ssl block, sites in order. */
  datatype Bind = Bind(addr: string, port: string, ssl: Option<Ssl>, sites: seq<Site>)

  /** A bind as the "bind" keyword creates it; address and port follow in the next token. */
  const NewBind := Bind("", "", None, [])
  const NewSite := Site([], None, [])
  const NewHandler := Handler("", None, [], None)
  const NoSsl := Ssl(None, None)

  /** The parser states of config_parse, named after its state constants (BIND is TopLevel). */
  datatype Phase =
    | TopLevel | BindValue | BindBracketsOpen | BindContent
    | SslBracketsOpen | SslContent | SslKeyEquals | SslKeyValue | SslCertEquals | SslCertValue
    | SiteBracketsOpen | SiteContent | SiteHostEquals | SiteHostValue | SiteRootEquals | SiteRootValue
    | HandlerValue | HandlerBracketsOpen | HandlerContent | TypeEquals | TypeValue | IndexEquals | IndexValue

  /** How many blocks are open in a state: 1 inside a bind (and its ssl block), 2 inside a site, 3 inside a handler. */
  function Depth(ph: Phase): nat {
    match ph
    case TopLevel => 0
    case BindValue | BindBracketsOpen | BindContent => 1
    case SslBracketsOpen | SslContent | SslKeyEquals | SslKeyValue | SslCertEquals | SslCertValue => 1
    case SiteBracketsOpen | SiteContent | SiteHostEquals | SiteHostValue | SiteRootEquals | SiteRootValue => 2
    case HandlerValue | HandlerBracketsOpen | HandlerContent | TypeEquals | TypeValue | IndexEquals | IndexValue => 3
  }

  predicate InSsl(ph: Phase) {
    ph.SslBracketsOpen? || ph.SslContent? || ph.SslKeyEquals? || ph.SslKeyValue? || ph.SslCertEquals? || ph.SslCertValue?
  }

  /** The parser: its state and the binds built so far. */
  datatype Parser = Parser(phase: Phase, binds: seq<Bind>)

  const Start := Parser(TopLevel, [])

  function LastBind(bs: seq<Bind>): Bind
    requires bs != []
  {
    bs[|bs| - 1]
  }

  function WithLastBind(bs: seq<Bind>, b: Bind): seq<Bind>
    requires bs != []
  {
    bs[..|bs| - 1] + [b]
  }

  function LastSite(b: Bind): Site
    requires b.sites != []
  {
    b.sites[|b.sites| - 1]
  }

  function WithLastSite(b: Bind, s: Site): Bind
    requires b.sites != []
  {
    b.(sites := b.sites[..|b.sites| - 1] + [s])
  }

  function LastHandler(s: Site): Handler
    requires s.handlers != []
  {
    s.handlers[|s.handlers| - 1]
  }

  function WithLastHandler(s: Site, h: Handler): Site
    requires s.handlers != []
  {
    s.(handlers := s.handlers[..|s.handlers| - 1] + [h])
  }

  /** The objects the C parser's current pointers refer to exist in every state that uses them. */
  predicate Shaped(p: Parser) {
    (Depth(p.phase) >= 1 ==> p.binds != [])
    && (Depth(p.phase) >= 1 && InSsl(p.phase) ==> LastBind(p.binds).ssl.Some?)
    && (Depth(p.phase) >= 2 ==> LastBind(p.binds).sites != [])
    && (Depth(p.phase) >= 3 ==> LastSite(LastBind(p.binds)).handlers != [])
  }

  /** The current site (currentSite). */
  function CurSite(bs: seq<Bind>): Site
    requires bs != [] && LastBind(bs).sites != []
  {
    LastSite(LastBind(bs))
  }

  /** The current handler (currentHandler). */
  function CurHandler(bs: seq<Bind>): Handler
    requires bs != [] && LastBind(bs).sites != [] && CurSite(bs).handlers != []
  {
    LastHandler(CurSite(bs))
  }

  /** The binds with the current bind's ssl block replaced. */
  function EditSsl(bs: seq<Bind>, f: Ssl): seq<Bind>
    requires bs != []
  {
    WithLastBind(bs, LastBind(bs).(ssl := Some(f)))
  }

  /** The binds with the current site replaced. */
  function EditSite(bs: seq<Bind>, s: Site): seq<Bind>
    requires bs != [] && LastBind(bs).sites != []
  {
    WithLastBind(bs, WithLastSite(LastBind(bs), s))
  }

  /** The binds with the current handler replaced. */
  function EditHandler(bs: seq<Bind>, h: Handler): seq<Bind>
    requires bs != [] && LastBind(bs).sites != [] && CurSite(bs).handlers != []
  {
    EditSite(bs, WithLastHandler(CurSite(bs), h))
  }

  /**
   * The bind address token split at its first ':' (strstr) into host and
   * port; a host of "*" stands for every interface, "0.0.0.0".
   */
  function SplitAddr(t: string): (r: (string, string))
    requires ':' in t
    ensures ':' !in r.0
    ensures |r.1| < |t| && t[|t| - |r.1|..] == r.1 && t[|t| - |r.1| - 1] == ':'
    ensures ':' !in t[..|t| - |r.1| - 1]
    ensures var host := t[..|t| - |r.1| - 1]; r.0 == if host == "*" then "0.0.0.0" else host
  {
    var host := CutAt(t, ':');
    CutAtPrefix(t, ':');
    (if host == "*" then "0.0.0.0" else host, t[|host| + 1..])
  }

  /**
   * The tokens each state accepts: the keywords of the block it is in, "{"
   * after a block keyword, "=" after a property keyword, and any value after
   * "=" (except that a bind address needs a ':', a handler type must be
   * "file" or "cgi", and an index file needs a file handler). "ssl" needs
   * SSL support and a bind without an ssl block yet.
   */
  predicate Accepts(ssl: bool, p: Parser, t: string)
    requires Shaped(p)
  {
    match p.phase
    case TopLevel => t == "bind"
    case BindValue => ':' in t
    case BindBracketsOpen | SslBracketsOpen | SiteBracketsOpen | HandlerBracketsOpen => t == "{"
    case SslKeyEquals | SslCertEquals | SiteHostEquals | SiteRootEquals | TypeEquals | IndexEquals => t == "="
    case SslKeyValue | SslCertValue | SiteHostValue | SiteRootValue | HandlerValue => true
    case BindContent => t == "site" || t == "}" || (t == "ssl" && ssl && LastBind(p.binds).ssl.None?)
    case SslContent => t == "key" || t == "cert" || t == "}"
    case SiteContent => t == "handler" || t == "hostname" || t == "alias" || t == "root" || t == "}"
    case HandlerContent => t == "type" || t == "index" || t == "}"
    case TypeValue => t == "file" || t == "cgi"
    case IndexValue => CurHandler(p.binds).handlerType == Some(FileHandler)
  }

  /**
   * One pass of the switch in config_parse's loop: the parser after the
   * token t (as the C string functions read it), or None where the C code
   * reports an error and returns NULL. `ssl` says whether SSL_SUPPORT is
   * compiled in.
   */
  function Step(ssl: bool, p: Parser, t: string): (r: Option<Parser>)
    requires Shaped(p)
    ensures r.Some? <==> Accepts(ssl, p, t)
    ensures r.Some? ==> Shaped(r.value)
  {
    if InSsl(p.phase) then StepSsl(p, t)
    else if Depth(p.phase) <= 1 then StepBind(ssl, p, t)
    else if Depth(p.phase) == 2 then StepSite(p, t)
    else StepHandler(p, t)
  }

  /** The transitions at top level and in a bind block. */
  function StepBind(ssl: bool, p: Parser, t: string): (r: Option<Parser>)
    requires Shaped(p) && Depth(p.phase) <= 1 && !InSsl(p.phase)
    ensures r.Some? <==> Accepts(ssl, p, t)
    ensures r.Some? ==> Shaped(r.value)
  {
    var bs := p.binds;
    match p.phase
    case TopLevel =>
      if t == "bind" then Some(Parser(BindValue, bs + [NewBind])) else None
    case BindValue =>
      if ':' in t then
        var (host, port) := SplitAddr(t);
        Some(Parser(BindBracketsOpen, WithLastBind(bs, LastBind(bs).(addr := host, port := port))))
      else None
    case BindBracketsOpen =>
      if t == "{" then Some(Parser(BindContent, bs)) else None
    case BindContent =>
      if t == "site" then Some(Parser(SiteBracketsOpen, WithLastBind(bs, LastBind(bs).(sites := LastBind(bs).sites + [NewSite]))))
      else if t == "}" then Some(Parser(TopLevel, bs))
      else if t == "ssl" && ssl && LastBind(bs).ssl.None? then Some(Parser(SslBracketsOpen, EditSsl(bs, NoSsl)))
      else None
  }

  /** The transitions in an ssl block. */
  function StepSsl(p: Parser, t: string): (r: Option<Parser>)
    requires Shaped(p) && InSsl(p.phase)
    ensures r.Some? <==> Accepts(true, p, t) && Accepts(false, p, t)
    ensures r.Some? ==> Shaped(r.value)
  {
    var bs := p.binds;
    match p.phase
    case SslBracketsOpen =>
      if t == "{" then Some(Parser(SslContent, bs)) else None
    case SslContent =>
      if t == "key" then Some(Parser(SslKeyEquals, bs))
      else if t == "cert" then Some(Parser(SslCertEquals, bs))
      else if t == "}" then Some(Parser(BindContent, bs))
      else None
    case SslKeyEquals =>
      if t == "=" then Some(Parser(SslKeyValue, bs)) else None
    case SslKeyValue =>
      Some(Parser(SslContent, EditSsl(bs, LastBind(bs).ssl.value.(key := Some(t)))))
    case SslCertEquals =>
      if t == "=" then Some(Parser(SslCertValue, bs)) else None
    case SslCertValue =>
      Some(Parser(SslContent, EditSsl(bs, LastBind(bs).ssl.value.(cert := Some(t)))))
  }

  /** The transitions in a site block. */
  function StepSite(p: Parser, t: string): (r: Option<Parser>)
    requires Shaped(p) && Depth(p.phase) == 2
    ensures r.Some? <==> Accepts(true, p, t) && Accepts(false, p, t)
    ensures r.Some? ==> Shaped(r.value)
  {
    var bs := p.binds;
    match p.phase
    case SiteBracketsOpen =>
      if t == "{" then Some(Parser(SiteContent, bs)) else None
    case SiteContent =>
      if t == "handler" then Some(Parser(HandlerValue, EditSite(bs, CurSite(bs).(handlers := CurSite(bs).handlers + [NewHandler]))))
      else if t == "hostname" || t == "alias" then Some(Parser(SiteHostEquals, bs))
      else if t == "root" then Some(Parser(SiteRootEquals, bs))
      else if t == "}" then Some(Parser(BindContent, bs))
      else None
    case SiteHostEquals =>
      if t == "=" then Some(Parser(SiteHostValue, bs)) else None
    case SiteHostValue =>
      Some(Parser(SiteContent, EditSite(bs, CurSite(bs).(hostnames := CurSite(bs).hostnames + [t]))))
    case SiteRootEquals =>
      if t == "=" then Some(Parser(SiteRootValue, bs)) else None
    case SiteRootValue =>
      Some(Parser(SiteContent, EditSite(bs, CurSite(bs).(root := Some(t)))))
  }

  /** The transitions in a handler block. */
  function StepHandler(p: Parser, t: string): (r: Option<Parser>)
    requires Shaped(p) && Depth(p.phase) == 3
    ensures r.Some? <==> Accepts(true, p, t) && Accepts(false, p, t)
    ensures r.Some? ==> Shaped(r.value)
  {
    var bs := p.binds;
    match p.phase
    case HandlerValue =>
      Some(Parser(HandlerBracketsOpen, EditHandler(bs, CurHandler(bs).(dir := t))))
    case HandlerBracketsOpen =>
      if t == "{" then Some(Parser(HandlerContent, bs)) else None
    case HandlerContent =>
      if t == "type" then Some(Parser(TypeEquals, bs))
      else if t == "index" then Some(Parser(IndexEquals, bs))
      else if t == "}" then Some(Parser(SiteContent, bs))
      else None
    case TypeEquals =>
      if t == "=" then Some(Parser(TypeValue, bs)) else None
    case TypeValue =>
      if t == "file" then Some(Parser(HandlerContent, EditHandler(bs, CurHandler(bs).(handlerType := Some(FileHandler)))))
      else if t == "cgi" then Some(Parser(HandlerContent, EditHandler(bs, CurHandler(bs).(handlerType := Some(CgiHandler)))))
      else None
    case IndexEquals =>
      if t == "=" then Some(Parser(IndexValue, bs)) else None
    case IndexValue =>
      if CurHandler(bs).handlerType == Some(FileHandler) then
        Some(Parser(HandlerContent, EditHandler(bs, CurHandler(bs).(indexFiles := CurHandler(bs).indexFiles + [t]))))
      else None
  }

  /** The parser after a sequence of tokens, each read as a C string, or None once one is rejected. */
  function Run(ssl: bool, p: Parser, ts: seq<string>): (r: Option<Parser>)
    requires Shaped(p)
    ensures r.Some? ==> Shaped(r.value)
    decreases |ts|
  {
    if ts == [] then Some(p)
    else match Step(ssl, p, UpToNul(ts[0]))
      case None => None
      case Some(q) => Run(ssl, q, ts[1..])
  }

  /** Running two token sequences one after the other is running their concatenation. */
  lemma {:induction false} RunAppend(ssl: bool, p: Parser, a: seq<string>, b: seq<string>)
    requires Shaped(p)
    ensures Run(ssl, p, a + b) == (match Run(ssl, p, a) case None => None case Some(q) => Run(ssl, q, b))
    decreases |a|
  {
    if a == [] {
      assert a + b == b;
    } else {
      assert (a + b)[0] == a[0];
      assert (a + b)[1..] == a[1..] + b;
      match Step(ssl, p, UpToNul(a[0]))
      case None =>
      case Some(q) => RunAppend(ssl, q, a[1..], b);
    }
  }

  /** A run through a then through b is a run through a + b. */
  lemma RunChain(ssl: bool, p: Parser, a: seq<string>, q: Parser, b: seq<string>, r: Parser)
    requires Shaped(p) && Run(ssl, p, a) == Some(q) && Run(ssl, q, b) == Some(r)
    ensures Run(ssl, p, a + b) == Some(r)
  {
    RunAppend(ssl, p, a, b);
  }

  /** Once a token is rejected, the tokens after it do not matter. */
  lemma RunFailsOnPrefix(ssl: bool, p: Parser, a: seq<string>, b: seq<string>)
    requires Shaped(p) && Run(ssl, p, a).None?
    ensures Run(ssl, p, a + b).None?
  {
    RunAppend(ssl, p, a, b);
  }

  /** One accepted token. */
  lemma RunOne(ssl: bool, p: Parser, a: string, q: Parser)
    requires Shaped(p) && NUL !in a && Step(ssl, p, a) == Some(q)
    ensures Run(ssl, p, [a]) == Some(q)
  {
    UpToNulWhole(a);
    assert [a][1..] == [];
  }

  /** Two accepted tokens in a row. */
  lemma RunTwo(ssl: bool, p: Parser, a: string, b: string, q: Parser)
    requires Shaped(p) && NUL !in a && NUL !in b
    requires Step(ssl, p, a).Some? && Step(ssl, Step(ssl, p, a).value, b) == Some(q)
    ensures Run(ssl, p, [a, b]) == Some(q)
  {
    var q1 := Step(ssl, p, a).value;
    RunOne(ssl, p, a, q1);
    RunOne(ssl, q1, b, q);
    RunAppend(ssl, p, [a], [b]);
    assert [a] + [b] == [a, b];
  }

  /** Three accepted tokens in a row. */
  lemma RunThree(ssl: bool, p: Parser, a: string, b: string, c: string, q: Parser)
    requires Shaped(p) && NUL !in a && NUL !in b && NUL !in c
    requires Step(ssl, p, a).Some? && Step(ssl, Step(ssl, p, a).value, b).Some?
    requires Step(ssl, Step(ssl, Step(ssl, p, a).value, b).value, c) == Some(q)
    ensures Run(ssl, p, [a, b, c]) == Some(q)
  {
    var q2 := Step(ssl, Step(ssl, p, a).value, b).value;
    RunTwo(ssl, p, a, b, q2);
    RunOne(ssl, q2, c, q);
    RunAppend(ssl, p, [a, b], [c]);
    assert [a, b] + [c] == [a, b, c];
  }

  /** An address written host:port splits back into host and port, unless the host is the wildcard "*". */
  lemma SplitAddrJoin(host: string, port: string)
    requires ':' !in host && host != "*"
    ensures SplitAddr(host + ":" + port) == (host, port)
  {
    var t := host + ":" + port;
    CutAtFirst(t, host, ':');
    assert t[|host| + 1..] == port;
  }

  /** The wildcard host "*" binds every interface. */
  lemma SplitAddrWildcard(port: string)
    ensures SplitAddr("*:" + port) == ("0.0.0.0", port)
  {
    var t := "*:" + port;
    CutAtFirst(t, "*", ':');
    assert t[2..] == port;
  }

  /** Replacing the current bind twice keeps the second replacement. */
  lemma WithLastBindTwice(bs: seq<Bind>, b1: Bind, b2: Bind)
    requires bs != []
    ensures WithLastBind(WithLastBind(bs, b1), b2) == WithLastBind(bs, b2)
    ensures LastBind(WithLastBind(bs, b1)) == b1
  {
    assert WithLastBind(bs, b1)[..|bs| - 1] == bs[..|bs| - 1];
  }

  /** The current site after it was replaced is the replacement; replacing it again keeps the second. */
  lemma EditSiteTwice(bs: seq<Bind>, s1: Site, s2: Site)
    requires bs != [] && LastBind(bs).sites != []
    ensures EditSite(bs, s1) != [] && LastBind(EditSite(bs, s1)).sites != []
    ensures CurSite(EditSite(bs, s1)) == s1
    ensures EditSite(EditSite(bs, s1), s2) == EditSite(bs, s2)
  {
    var b := LastBind(bs);
    WithLastBindTwice(bs, WithLastSite(b, s1), WithLastSite(WithLastSite(b, s1), s2));
    WithLastBindTwice(bs, WithLastSite(b, s1), WithLastSite(b, s2));
    assert WithLastSite(b, s1).sites[..|b.sites| - 1] == b.sites[..|b.sites| - 1];
    assert WithLastSite(WithLastSite(b, s1), s2) == WithLastSite(b, s2);
  }

  /** The current handler after it was replaced is the replacement; replacing it again keeps the second. */
  lemma EditHandlerTwice(bs: seq<Bind>, h1: Handler, h2: Handler)
    requires bs != [] && LastBind(bs).sites != [] && CurSite(bs).handlers != []
    ensures var bs' := EditHandler(bs, h1);
      bs' != [] && LastBind(bs').sites != [] && CurSite(bs').handlers != []
      && CurHandler(bs') == h1 && EditHandler(bs', h2) == EditHandler(bs, h2)
  {
    var s := CurSite(bs);
    var s1 := WithLastHandler(s, h1);
    EditSiteTwice(bs, s1, WithLastHandler(s1, h2));
    assert s1.handlers[..|s.handlers| - 1] == s.handlers[..|s.handlers| - 1];
    assert WithLastHandler(s1, h2) == WithLastHandler(s, h2);
  }
}

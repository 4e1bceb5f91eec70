/**
 * A printer for configurations in the syntax config_parse reads, and the
 * round trip: parsing a printed configuration rebuilds exactly the binds,
 * sites, handlers, host names and index files printed, in order, and then
 * applies the validation pass to them.
 */
module ConfigPrint {
  import opened Wrappers
  import opened CStrings
  import opened ConfigModel
  import opened ConfigLexer
  import opened ConfigValidate
  import opened ConfigParse

  /** A value the parser can read back as one token. */
  predicate Value(t: string) {
    Word(t) && NUL !in t
  }

  predicate Values(ts: seq<string>) {
    forall k :: 0 <= k < |ts| ==> Value(ts[k])
  }

  function TypeName(t: HandlerType): string {
    match t
    case FileHandler => "file"
    case CgiHandler => "cgi"
  }

  /** "name = value" when the value is present. */
  function Property(name: string, v: Option<string>): (r: seq<string>)
    ensures Value(name) && (v.Some? ==> Value(v.value)) ==> Values(r)
  {
    if v.Some? then [name, "=", v.value] else []
  }

  function RenderType(t: Option<HandlerType>): (r: seq<string>)
    ensures Values(r)
  {
    if t.Some? then ["type", "=", TypeName(t.value)] else []
  }

  /** "key = v" for each v in order: the index files of a handler, the host names of a site. */
  function RenderAssignments(key: string, vs: seq<string>): (r: seq<string>)
    ensures Value(key) && Values(vs) ==> Values(r)
  {
    if vs == [] then [] else [key, "=", vs[0]] + RenderAssignments(key, vs[1..])
  }

  /** A handler the parser rebuilds as it is: a readable directory and index files, index files only for a file handler, no document root yet. */
  predicate HandlerPrintable(h: Handler) {
    Value(h.dir) && Values(h.indexFiles)
    && (h.indexFiles != [] ==> h.handlerType == Some(FileHandler))
    && h.documentRoot.None?
  }

  function RenderHandler(h: Handler): (r: seq<string>)
    ensures HandlerPrintable(h) ==> Values(r)
  {
    ["handler", h.dir, "{"] + RenderType(h.handlerType) + RenderAssignments("index", h.indexFiles) + ["}"]
  }

  function RenderHandlers(hs: seq<Handler>): (r: seq<string>)
    ensures (forall k :: 0 <= k < |hs| ==> HandlerPrintable(hs[k])) ==> Values(r)
  {
    if hs == [] then [] else RenderHandler(hs[0]) + RenderHandlers(hs[1..])
  }

  predicate SitePrintable(s: Site) {
    Values(s.hostnames) && (s.root.Some? ==> Value(s.root.value))
    && forall k :: 0 <= k < |s.handlers| ==> HandlerPrintable(s.handlers[k])
  }

  function RenderSite(s: Site): (r: seq<string>)
    ensures SitePrintable(s) ==> Values(r)
  {
    ["site", "{"] + RenderAssignments("hostname", s.hostnames) + Property("root", s.root) + RenderHandlers(s.handlers) + ["}"]
  }

  function RenderSites(ss: seq<Site>): (r: seq<string>)
    ensures (forall j :: 0 <= j < |ss| ==> SitePrintable(ss[j])) ==> Values(r)
  {
    if ss == [] then [] else RenderSite(ss[0]) + RenderSites(ss[1..])
  }

  predicate SslPrintable(f: Ssl) {
    (f.key.Some? ==> Value(f.key.value)) && (f.cert.Some? ==> Value(f.cert.value))
  }

  function RenderSsl(f: Option<Ssl>): (r: seq<string>)
    ensures (f.Some? ==> SslPrintable(f.value)) ==> Values(r)
  {
    if f.Some? then ["ssl", "{"] + Property("key", f.value.key) + Property("cert", f.value.cert) + ["}"] else []
  }

  /**
   * A bind the parser rebuilds as it is: the host has no ':' and is not the
   * wildcard (which would come back as "0.0.0.0"), and host:port is one token.
   */
  predicate BindPrintable(b: Bind) {
    ':' !in b.addr && b.addr != "*" && Value(b.addr + ":" + b.port)
    && (b.ssl.Some? ==> SslPrintable(b.ssl.value))
    && forall j :: 0 <= j < |b.sites| ==> SitePrintable(b.sites[j])
  }

  function RenderBind(b: Bind): (r: seq<string>)
    ensures BindPrintable(b) ==> Values(r)
  {
    ["bind", b.addr + ":" + b.port, "{"] + BindBody(b)
  }

  /** What follows "bind host:port {": the ssl block, the sites and the closing brace. */
  function BindBody(b: Bind): (r: seq<string>)
    ensures BindPrintable(b) ==> Values(r)
  {
    RenderSsl(b.ssl) + RenderSites(b.sites) + ["}"]
  }

  function Render(bs: seq<Bind>): (r: seq<string>)
    ensures (forall i :: 0 <= i < |bs| ==> BindPrintable(bs[i])) ==> Values(r)
  {
    if bs == [] then [] else RenderBind(bs[0]) + Render(bs[1..])
  }

  /** Binds the parser rebuilds as they are; ssl blocks only where SSL support is compiled in. */
  predicate Printable(ssl: bool, bs: seq<Bind>) {
    forall i :: 0 <= i < |bs| ==> BindPrintable(bs[i]) && (bs[i].ssl.Some? ==> ssl)
  }

  /** The configuration file text: every token followed by a space. */
  function Print(bs: seq<Bind>): string {
    Unwords(Render(bs))
  }

  /** The binds with the current handler h, on top of the other binds bs0. */
  predicate HandlerBase(bs0: seq<Bind>) {
    bs0 != [] && LastBind(bs0).sites != [] && CurSite(bs0).handlers != []
  }

  predicate SiteBase(bs0: seq<Bind>) {
    bs0 != [] && LastBind(bs0).sites != []
  }

  /** Index files are appended to the current handler in order. */
  lemma {:induction false} RunIndexFiles(ssl: bool, bs0: seq<Bind>, h: Handler, fs: seq<string>)
    requires HandlerBase(bs0) && Values(fs)
    requires fs != [] ==> h.handlerType == Some(FileHandler)
    ensures EditHandler(bs0, h) != [] && Shaped(Parser(HandlerContent, EditHandler(bs0, h)))
    ensures Run(ssl, Parser(HandlerContent, EditHandler(bs0, h)), RenderAssignments("index", fs))
         == Some(Parser(HandlerContent, EditHandler(bs0, h.(indexFiles := h.indexFiles + fs))))
    decreases |fs|
  {
    EditHandlerTwice(bs0, h, h);
    if fs == [] {
      assert h.indexFiles + fs == h.indexFiles;
    } else {
      var h1 := h.(indexFiles := h.indexFiles + [fs[0]]);
      var h2 := h.(indexFiles := h.indexFiles + fs);
      RunIndexFile(ssl, bs0, h, fs[0]);
      RunIndexFiles(ssl, bs0, h1, fs[1..]);
      SeqCons(h.indexFiles, fs);
      RunChain(ssl, Parser(HandlerContent, EditHandler(bs0, h)), ["index", "=", fs[0]],
        Parser(HandlerContent, EditHandler(bs0, h1)), RenderAssignments("index", fs[1..]), Parser(HandlerContent, EditHandler(bs0, h2)));
    }
  }

  /** One index property appends to the current handler's index files. */
  lemma RunIndexFile(ssl: bool, bs0: seq<Bind>, h: Handler, f: string)
    requires HandlerBase(bs0) && Value(f) && h.handlerType == Some(FileHandler)
    ensures EditHandler(bs0, h) != [] && Shaped(Parser(HandlerContent, EditHandler(bs0, h)))
    ensures Run(ssl, Parser(HandlerContent, EditHandler(bs0, h)), ["index", "=", f])
         == Some(Parser(HandlerContent, EditHandler(bs0, h.(indexFiles := h.indexFiles + [f]))))
  {
    var bs := EditHandler(bs0, h);
    var h1 := h.(indexFiles := h.indexFiles + [f]);
    EditHandlerTwice(bs0, h, h1);
    var p := Parser(HandlerContent, bs);
    assert Step(ssl, p, "index") == Some(Parser(IndexEquals, bs));
    assert Step(ssl, Parser(IndexEquals, bs), "=") == Some(Parser(IndexValue, bs));
    assert Step(ssl, Parser(IndexValue, bs), f) == Some(Parser(HandlerContent, EditHandler(bs0, h1)));
    RunThree(ssl, p, "index", "=", f, Parser(HandlerContent, EditHandler(bs0, h1)));
  }

  /** A type property sets the current handler's type. */
  lemma RunType(ssl: bool, bs0: seq<Bind>, h: Handler, t: Option<HandlerType>)
    requires HandlerBase(bs0)
    ensures EditHandler(bs0, h) != [] && Shaped(Parser(HandlerContent, EditHandler(bs0, h)))
    ensures Run(ssl, Parser(HandlerContent, EditHandler(bs0, h)), RenderType(t))
         == Some(Parser(HandlerContent, EditHandler(bs0, if t.Some? then h.(handlerType := t) else h)))
  {
    var bs := EditHandler(bs0, h);
    EditHandlerTwice(bs0, h, h);
    if t.Some? {
      var h1 := h.(handlerType := t);
      EditHandlerTwice(bs0, h, h1);
      SetType(ssl, bs, t.value);
    }
  }

  /** "type = file" or "type = cgi" sets the type of the handler being read. */
  lemma SetType(ssl: bool, bs: seq<Bind>, ty: HandlerType)
    requires Shaped(Parser(HandlerContent, bs))
    ensures Run(ssl, Parser(HandlerContent, bs), ["type", "=", TypeName(ty)])
         == Some(Parser(HandlerContent, EditHandler(bs, CurHandler(bs).(handlerType := Some(ty)))))
  {
    var q := Parser(HandlerContent, EditHandler(bs, CurHandler(bs).(handlerType := Some(ty))));
    assert Step(ssl, Parser(HandlerContent, bs), "type") == Some(Parser(TypeEquals, bs));
    assert Step(ssl, Parser(TypeEquals, bs), "=") == Some(Parser(TypeValue, bs));
    TypeValueStep(ssl, bs, ty);
    RunThree(ssl, Parser(HandlerContent, bs), "type", "=", TypeName(ty), q);
  }

  /** The value after "type =" is stored in the handler being read. */
  lemma TypeValueStep(ssl: bool, bs: seq<Bind>, ty: HandlerType)
    requires Shaped(Parser(TypeValue, bs))
    ensures Step(ssl, Parser(TypeValue, bs), TypeName(ty))
         == Some(Parser(HandlerContent, EditHandler(bs, CurHandler(bs).(handlerType := Some(ty)))))
  {
    match ty
    case FileHandler =>
    case CgiHandler =>
  }

  /** A handler appended to the current site s: the binds while it is being filled in. */
  lemma NewHandlerSlot(bs0: seq<Bind>, s: Site, x: Handler)
    requires SiteBase(bs0)
    ensures var bs1 := EditSite(bs0, s.(handlers := s.handlers + [NewHandler]));
      HandlerBase(bs1) && CurHandler(bs1) == NewHandler
      && EditHandler(bs1, x) == EditSite(bs0, s.(handlers := s.handlers + [x]))
  {
    var s1 := s.(handlers := s.handlers + [NewHandler]);
    EditSiteTwice(bs0, s1, WithLastHandler(s1, x));
    assert (s.handlers + [NewHandler])[..|s.handlers|] == s.handlers;
  }

  /** "handler dir {" appends a handler with that directory and opens it. */
  lemma RunHandlerOpen(ssl: bool, bs0: seq<Bind>, s: Site, d: string)
    requires SiteBase(bs0) && Value(d)
    ensures EditSite(bs0, s) != [] && Shaped(Parser(SiteContent, EditSite(bs0, s)))
    ensures var bs1 := EditSite(bs0, s.(handlers := s.handlers + [NewHandler]));
      HandlerBase(bs1)
      && Run(ssl, Parser(SiteContent, EditSite(bs0, s)), ["handler", d, "{"])
         == Some(Parser(HandlerContent, EditHandler(bs1, NewHandler.(dir := d))))
  {
    var s1 := s.(handlers := s.handlers + [NewHandler]);
    var bs := EditSite(bs0, s);
    var bs1 := EditSite(bs0, s1);
    EditSiteTwice(bs0, s, s1);
    NewHandlerSlot(bs0, s, NewHandler);
    var bs2 := EditHandler(bs1, NewHandler.(dir := d));
    assert Step(ssl, Parser(SiteContent, bs), "handler") == Some(Parser(HandlerValue, bs1));
    assert Step(ssl, Parser(HandlerValue, bs1), d) == Some(Parser(HandlerBracketsOpen, bs2));
    assert Step(ssl, Parser(HandlerBracketsOpen, bs2), "{") == Some(Parser(HandlerContent, bs2));
    RunThree(ssl, Parser(SiteContent, bs), "handler", d, "{", Parser(HandlerContent, bs2));
  }

  /** "}" closes a handler and returns to its site. */
  lemma RunHandlerClose(ssl: bool, bs1: seq<Bind>, h: Handler)
    requires HandlerBase(bs1)
    ensures EditHandler(bs1, h) != [] && Shaped(Parser(HandlerContent, EditHandler(bs1, h)))
    ensures Run(ssl, Parser(HandlerContent, EditHandler(bs1, h)), ["}"]) == Some(Parser(SiteContent, EditHandler(bs1, h)))
  {
    EditHandlerTwice(bs1, h, h);
    RunOne(ssl, Parser(HandlerContent, EditHandler(bs1, h)), "}", Parser(SiteContent, EditHandler(bs1, h)));
  }

  /** A printed handler is appended, as printed, to the current site. */
  lemma RunHandler(ssl: bool, bs0: seq<Bind>, s: Site, h: Handler)
    requires SiteBase(bs0) && HandlerPrintable(h)
    ensures EditSite(bs0, s) != [] && Shaped(Parser(SiteContent, EditSite(bs0, s)))
    ensures Run(ssl, Parser(SiteContent, EditSite(bs0, s)), RenderHandler(h))
         == Some(Parser(SiteContent, EditSite(bs0, s.(handlers := s.handlers + [h]))))
  {
    var bs1 := EditSite(bs0, s.(handlers := s.handlers + [NewHandler]));
    var h1 := NewHandler.(dir := h.dir);
    var h2 := if h.handlerType.Some? then h1.(handlerType := h.handlerType) else h1;
    var h3 := h2.(indexFiles := h2.indexFiles + h.indexFiles);
    assert h3 == h;
    RunHandlerOpen(ssl, bs0, s, h.dir);
    RunType(ssl, bs1, h1, h.handlerType);
    RunIndexFiles(ssl, bs1, h2, h.indexFiles);
    RunHandlerClose(ssl, bs1, h);
    NewHandlerSlot(bs0, s, h);
    var p0 := Parser(SiteContent, EditSite(bs0, s));
    var p1 := Parser(HandlerContent, EditHandler(bs1, h1));
    var p2 := Parser(HandlerContent, EditHandler(bs1, h2));
    var p3 := Parser(HandlerContent, EditHandler(bs1, h));
    var p4 := Parser(SiteContent, EditHandler(bs1, h));
    var a := ["handler", h.dir, "{"];
    var b := RenderType(h.handlerType);
    var c := RenderAssignments("index", h.indexFiles);
    RunChain(ssl, p0, a, p1, b, p2);
    RunChain(ssl, p0, a + b, p2, c, p3);
    RunChain(ssl, p0, a + b + c, p3, ["}"], p4);
  }

  /** Handlers are appended to the current site in order. */
  lemma {:induction false} RunHandlers(ssl: bool, bs0: seq<Bind>, s: Site, hs: seq<Handler>)
    requires SiteBase(bs0) && forall k :: 0 <= k < |hs| ==> HandlerPrintable(hs[k])
    ensures EditSite(bs0, s) != [] && Shaped(Parser(SiteContent, EditSite(bs0, s)))
    ensures Run(ssl, Parser(SiteContent, EditSite(bs0, s)), RenderHandlers(hs))
         == Some(Parser(SiteContent, EditSite(bs0, s.(handlers := s.handlers + hs))))
    decreases |hs|
  {
    EditSiteTwice(bs0, s, s);
    if hs == [] {
      assert s.handlers + hs == s.handlers;
    } else {
      var s1 := s.(handlers := s.handlers + [hs[0]]);
      var s2 := s.(handlers := s.handlers + hs);
      RunHandler(ssl, bs0, s, hs[0]);
      RunHandlers(ssl, bs0, s1, hs[1..]);
      SeqCons(s.handlers, hs);
      RunChain(ssl, Parser(SiteContent, EditSite(bs0, s)), RenderHandler(hs[0]),
        Parser(SiteContent, EditSite(bs0, s1)), RenderHandlers(hs[1..]), Parser(SiteContent, EditSite(bs0, s2)));
    }
  }

  /** One hostname (or alias) property appends to the current site's host names. */
  lemma RunHostname(ssl: bool, bs0: seq<Bind>, s: Site, n: string)
    requires SiteBase(bs0) && Value(n)
    ensures EditSite(bs0, s) != [] && Shaped(Parser(SiteContent, EditSite(bs0, s)))
    ensures Run(ssl, Parser(SiteContent, EditSite(bs0, s)), ["hostname", "=", n])
         == Some(Parser(SiteContent, EditSite(bs0, s.(hostnames := s.hostnames + [n]))))
  {
    var bs := EditSite(bs0, s);
    var s1 := s.(hostnames := s.hostnames + [n]);
    EditSiteTwice(bs0, s, s1);
    assert Step(ssl, Parser(SiteContent, bs), "hostname") == Some(Parser(SiteHostEquals, bs));
    assert Step(ssl, Parser(SiteHostEquals, bs), "=") == Some(Parser(SiteHostValue, bs));
    assert Step(ssl, Parser(SiteHostValue, bs), n) == Some(Parser(SiteContent, EditSite(bs0, s1)));
    RunThree(ssl, Parser(SiteContent, bs), "hostname", "=", n, Parser(SiteContent, EditSite(bs0, s1)));
  }

  /** Host names are appended to the current site in order. */
  lemma {:induction false} RunHostnames(ssl: bool, bs0: seq<Bind>, s: Site, ns: seq<string>)
    requires SiteBase(bs0) && Values(ns)
    ensures EditSite(bs0, s) != [] && Shaped(Parser(SiteContent, EditSite(bs0, s)))
    ensures Run(ssl, Parser(SiteContent, EditSite(bs0, s)), RenderAssignments("hostname", ns))
         == Some(Parser(SiteContent, EditSite(bs0, s.(hostnames := s.hostnames + ns))))
    decreases |ns|
  {
    EditSiteTwice(bs0, s, s);
    if ns == [] {
      assert s.hostnames + ns == s.hostnames;
    } else {
      var s1 := s.(hostnames := s.hostnames + [ns[0]]);
      var s2 := s.(hostnames := s.hostnames + ns);
      RunHostname(ssl, bs0, s, ns[0]);
      RunHostnames(ssl, bs0, s1, ns[1..]);
      SeqCons(s.hostnames, ns);
      RunChain(ssl, Parser(SiteContent, EditSite(bs0, s)), ["hostname", "=", ns[0]],
        Parser(SiteContent, EditSite(bs0, s1)), RenderAssignments("hostname", ns[1..]), Parser(SiteContent, EditSite(bs0, s2)));
    }
  }

  /** A root property sets the current site's document root. */
  lemma RunRoot(ssl: bool, bs0: seq<Bind>, s: Site, r: Option<string>)
    requires SiteBase(bs0) && (r.Some? ==> Value(r.value))
    ensures EditSite(bs0, s) != [] && Shaped(Parser(SiteContent, EditSite(bs0, s)))
    ensures Run(ssl, Parser(SiteContent, EditSite(bs0, s)), Property("root", r))
         == Some(Parser(SiteContent, EditSite(bs0, if r.Some? then s.(root := r) else s)))
  {
    var bs := EditSite(bs0, s);
    EditSiteTwice(bs0, s, s);
    if r.Some? {
      var s1 := s.(root := r);
      EditSiteTwice(bs0, s, s1);
      assert Step(ssl, Parser(SiteContent, bs), "root") == Some(Parser(SiteRootEquals, bs));
      assert Step(ssl, Parser(SiteRootEquals, bs), "=") == Some(Parser(SiteRootValue, bs));
      assert Step(ssl, Parser(SiteRootValue, bs), r.value) == Some(Parser(SiteContent, EditSite(bs0, s1)));
      RunThree(ssl, Parser(SiteContent, bs), "root", "=", r.value, Parser(SiteContent, EditSite(bs0, s1)));
    }
  }

  /** A site appended to the current bind b: the binds while it is being filled in. */
  lemma NewSiteSlot(bs0: seq<Bind>, b: Bind, x: Site)
    requires bs0 != []
    ensures var bs1 := WithLastBind(bs0, b.(sites := b.sites + [NewSite]));
      SiteBase(bs1) && CurSite(bs1) == NewSite
      && EditSite(bs1, x) == WithLastBind(bs0, b.(sites := b.sites + [x]))
  {
    var b1 := b.(sites := b.sites + [NewSite]);
    WithLastBindTwice(bs0, b1, WithLastSite(b1, x));
    assert (b.sites + [NewSite])[..|b.sites|] == b.sites;
    assert WithLastSite(b1, x) == b.(sites := b.sites + [x]);
  }

  /** "site {" appends an empty site to the current bind and opens it. */
  lemma RunSiteOpen(ssl: bool, bs0: seq<Bind>, b: Bind)
    requires bs0 != []
    ensures Shaped(Parser(BindContent, WithLastBind(bs0, b)))
    ensures var bs1 := WithLastBind(bs0, b.(sites := b.sites + [NewSite]));
      SiteBase(bs1)
      && Run(ssl, Parser(BindContent, WithLastBind(bs0, b)), ["site", "{"]) == Some(Parser(SiteContent, EditSite(bs1, NewSite)))
  {
    var bs := WithLastBind(bs0, b);
    var bs1 := WithLastBind(bs0, b.(sites := b.sites + [NewSite]));
    WithLastBindTwice(bs0, b, b.(sites := b.sites + [NewSite]));
    NewSiteSlot(bs0, b, NewSite);
    assert Step(ssl, Parser(BindContent, bs), "site") == Some(Parser(SiteBracketsOpen, bs1));
    assert Step(ssl, Parser(SiteBracketsOpen, bs1), "{") == Some(Parser(SiteContent, bs1));
    RunTwo(ssl, Parser(BindContent, bs), "site", "{", Parser(SiteContent, EditSite(bs1, NewSite)));
  }

  /** "}" closes a site and returns to its bind. */
  lemma RunSiteClose(ssl: bool, bs1: seq<Bind>, s: Site)
    requires SiteBase(bs1)
    ensures EditSite(bs1, s) != [] && Shaped(Parser(SiteContent, EditSite(bs1, s)))
    ensures Run(ssl, Parser(SiteContent, EditSite(bs1, s)), ["}"]) == Some(Parser(BindContent, EditSite(bs1, s)))
  {
    EditSiteTwice(bs1, s, s);
    RunOne(ssl, Parser(SiteContent, EditSite(bs1, s)), "}", Parser(BindContent, EditSite(bs1, s)));
  }

  /** A printed site is appended, as printed, to the current bind. */
  lemma RunSite(ssl: bool, bs0: seq<Bind>, b: Bind, s: Site)
    requires bs0 != [] && SitePrintable(s)
    ensures Shaped(Parser(BindContent, WithLastBind(bs0, b)))
    ensures Run(ssl, Parser(BindContent, WithLastBind(bs0, b)), RenderSite(s))
         == Some(Parser(BindContent, WithLastBind(bs0, b.(sites := b.sites + [s]))))
  {
    var bs1 := WithLastBind(bs0, b.(sites := b.sites + [NewSite]));
    var s1 := NewSite.(hostnames := NewSite.hostnames + s.hostnames);
    var s2 := if s.root.Some? then s1.(root := s.root) else s1;
    var s3 := s2.(handlers := s2.handlers + s.handlers);
    assert s3 == s;
    RunSiteOpen(ssl, bs0, b);
    RunHostnames(ssl, bs1, NewSite, s.hostnames);
    RunRoot(ssl, bs1, s1, s.root);
    RunHandlers(ssl, bs1, s2, s.handlers);
    RunSiteClose(ssl, bs1, s);
    NewSiteSlot(bs0, b, s);
    var p0 := Parser(BindContent, WithLastBind(bs0, b));
    var p1 := Parser(SiteContent, EditSite(bs1, NewSite));
    var p2 := Parser(SiteContent, EditSite(bs1, s1));
    var p3 := Parser(SiteContent, EditSite(bs1, s2));
    var p4 := Parser(SiteContent, EditSite(bs1, s));
    var p5 := Parser(BindContent, EditSite(bs1, s));
    var a := ["site", "{"];
    var h := RenderAssignments("hostname", s.hostnames);
    var r := Property("root", s.root);
    var hs := RenderHandlers(s.handlers);
    RunChain(ssl, p0, a, p1, h, p2);
    RunChain(ssl, p0, a + h, p2, r, p3);
    RunChain(ssl, p0, a + h + r, p3, hs, p4);
    RunChain(ssl, p0, a + h + r + hs, p4, ["}"], p5);
  }

  /** Sites are appended to the current bind in order. */
  lemma {:induction false} RunSites(ssl: bool, bs0: seq<Bind>, b: Bind, ss: seq<Site>)
    requires bs0 != [] && forall j :: 0 <= j < |ss| ==> SitePrintable(ss[j])
    ensures Shaped(Parser(BindContent, WithLastBind(bs0, b)))
    ensures Run(ssl, Parser(BindContent, WithLastBind(bs0, b)), RenderSites(ss))
         == Some(Parser(BindContent, WithLastBind(bs0, b.(sites := b.sites + ss))))
    decreases |ss|
  {
    if ss == [] {
      assert b.sites + ss == b.sites;
    } else {
      var b1 := b.(sites := b.sites + [ss[0]]);
      var b2 := b.(sites := b.sites + ss);
      RunSite(ssl, bs0, b, ss[0]);
      RunSites(ssl, bs0, b1, ss[1..]);
      SeqCons(b.sites, ss);
      RunChain(ssl, Parser(BindContent, WithLastBind(bs0, b)), RenderSite(ss[0]),
        Parser(BindContent, WithLastBind(bs0, b1)), RenderSites(ss[1..]), Parser(BindContent, WithLastBind(bs0, b2)));
    }
  }

  /** The binds while the current bind b has the ssl block g. */
  lemma SslSlot(bs0: seq<Bind>, b: Bind, g: Ssl, g': Ssl)
    requires bs0 != []
    ensures var bs := WithLastBind(bs0, b.(ssl := Some(g)));
      Shaped(Parser(SslContent, bs)) && LastBind(bs).ssl == Some(g)
      && EditSsl(bs, g') == WithLastBind(bs0, b.(ssl := Some(g')))
  {
    WithLastBindTwice(bs0, b.(ssl := Some(g)), b.(ssl := Some(g')));
  }

  /** A key property sets the private key of the current ssl block. */
  lemma RunSslKey(ssl: bool, bs0: seq<Bind>, b: Bind, g: Ssl, k: Option<string>)
    requires bs0 != [] && (k.Some? ==> Value(k.value))
    ensures Shaped(Parser(SslContent, WithLastBind(bs0, b.(ssl := Some(g)))))
    ensures Run(ssl, Parser(SslContent, WithLastBind(bs0, b.(ssl := Some(g)))), Property("key", k))
         == Some(Parser(SslContent, WithLastBind(bs0, b.(ssl := Some(if k.Some? then g.(key := k) else g)))))
  {
    var bs := WithLastBind(bs0, b.(ssl := Some(g)));
    SslSlot(bs0, b, g, g);
    if k.Some? {
      var bs1 := WithLastBind(bs0, b.(ssl := Some(g.(key := k))));
      SslSlot(bs0, b, g, g.(key := k));
      assert Step(ssl, Parser(SslContent, bs), "key") == Some(Parser(SslKeyEquals, bs));
      assert Step(ssl, Parser(SslKeyEquals, bs), "=") == Some(Parser(SslKeyValue, bs));
      assert Step(ssl, Parser(SslKeyValue, bs), k.value) == Some(Parser(SslContent, bs1));
      RunThree(ssl, Parser(SslContent, bs), "key", "=", k.value, Parser(SslContent, bs1));
    }
  }

  /** A cert property sets the certificate of the current ssl block. */
  lemma RunSslCert(ssl: bool, bs0: seq<Bind>, b: Bind, g: Ssl, k: Option<string>)
    requires bs0 != [] && (k.Some? ==> Value(k.value))
    ensures Shaped(Parser(SslContent, WithLastBind(bs0, b.(ssl := Some(g)))))
    ensures Run(ssl, Parser(SslContent, WithLastBind(bs0, b.(ssl := Some(g)))), Property("cert", k))
         == Some(Parser(SslContent, WithLastBind(bs0, b.(ssl := Some(if k.Some? then g.(cert := k) else g)))))
  {
    var bs := WithLastBind(bs0, b.(ssl := Some(g)));
    SslSlot(bs0, b, g, g);
    if k.Some? {
      var bs1 := WithLastBind(bs0, b.(ssl := Some(g.(cert := k))));
      SslSlot(bs0, b, g, g.(cert := k));
      assert Step(ssl, Parser(SslContent, bs), "cert") == Some(Parser(SslCertEquals, bs));
      assert Step(ssl, Parser(SslCertEquals, bs), "=") == Some(Parser(SslCertValue, bs));
      assert Step(ssl, Parser(SslCertValue, bs), k.value) == Some(Parser(SslContent, bs1));
      RunThree(ssl, Parser(SslContent, bs), "cert", "=", k.value, Parser(SslContent, bs1));
    }
  }

  /** With SSL support, a printed ssl block becomes the current bind's ssl settings. */
  lemma RunSsl(ssl: bool, bs0: seq<Bind>, b: Bind, f: Ssl)
    requires bs0 != [] && ssl && b.ssl.None? && SslPrintable(f)
    ensures Shaped(Parser(BindContent, WithLastBind(bs0, b)))
    ensures Run(ssl, Parser(BindContent, WithLastBind(bs0, b)), RenderSsl(Some(f)))
         == Some(Parser(BindContent, WithLastBind(bs0, b.(ssl := Some(f)))))
  {
    var bs := WithLastBind(bs0, b);
    var g1 := if f.key.Some? then NoSsl.(key := f.key) else NoSsl;
    var g2 := if f.cert.Some? then g1.(cert := f.cert) else g1;
    assert g2 == f;
    var bsN := WithLastBind(bs0, b.(ssl := Some(NoSsl)));
    var bsF := WithLastBind(bs0, b.(ssl := Some(f)));
    WithLastBindTwice(bs0, b, b.(ssl := Some(NoSsl)));
    assert Step(ssl, Parser(BindContent, bs), "ssl") == Some(Parser(SslBracketsOpen, bsN));
    assert Step(ssl, Parser(SslBracketsOpen, bsN), "{") == Some(Parser(SslContent, bsN));
    RunTwo(ssl, Parser(BindContent, bs), "ssl", "{", Parser(SslContent, bsN));
    RunSslKey(ssl, bs0, b, NoSsl, f.key);
    RunSslCert(ssl, bs0, b, g1, f.cert);
    SslSlot(bs0, b, f, f);
    RunOne(ssl, Parser(SslContent, bsF), "}", Parser(BindContent, bsF));
    var p0 := Parser(BindContent, bs);
    var a := ["ssl", "{"];
    var k := Property("key", f.key);
    var t := Property("cert", f.cert);
    RunChain(ssl, p0, a, Parser(SslContent, bsN), k, Parser(SslContent, WithLastBind(bs0, b.(ssl := Some(g1)))));
    RunChain(ssl, p0, a + k, Parser(SslContent, WithLastBind(bs0, b.(ssl := Some(g1)))), t, Parser(SslContent, bsF));
    RunChain(ssl, p0, a + k + t, Parser(SslContent, bsF), ["}"], Parser(BindContent, bsF));
  }

  /** "bind host:port {" appends a bind with that address and opens it. */
  lemma RunBindOpen(ssl: bool, pre: seq<Bind>, b: Bind)
    requires ':' !in b.addr && b.addr != "*" && Value(b.addr + ":" + b.port)
    ensures Run(ssl, Parser(TopLevel, pre), ["bind", b.addr + ":" + b.port, "{"])
         == Some(Parser(BindContent, WithLastBind(pre + [NewBind], Bind(b.addr, b.port, None, []))))
  {
    var bs0 := pre + [NewBind];
    var bs1 := WithLastBind(bs0, Bind(b.addr, b.port, None, []));
    var t := b.addr + ":" + b.port;
    assert t[|b.addr|] == ':';
    SplitAddrJoin(b.addr, b.port);
    assert LastBind(bs0) == NewBind;
    assert Step(ssl, Parser(TopLevel, pre), "bind") == Some(Parser(BindValue, bs0));
    assert Step(ssl, Parser(BindValue, bs0), t) == Some(Parser(BindBracketsOpen, bs1));
    assert Step(ssl, Parser(BindBracketsOpen, bs1), "{") == Some(Parser(BindContent, bs1));
    RunThree(ssl, Parser(TopLevel, pre), "bind", t, "{", Parser(BindContent, bs1));
  }

  /** The ssl block, sites and closing brace of a printed bind fill in and close the bind just opened. */
  lemma RunBindBody(ssl: bool, pre: seq<Bind>, b: Bind)
    requires BindPrintable(b) && (b.ssl.Some? ==> ssl)
    ensures var bs0 := pre + [NewBind];
      Run(ssl, Parser(BindContent, WithLastBind(bs0, Bind(b.addr, b.port, None, []))), BindBody(b))
      == Some(Parser(TopLevel, pre + [b]))
  {
    var bs0 := pre + [NewBind];
    var b1 := Bind(b.addr, b.port, None, []);
    var b2 := b1.(ssl := b.ssl);
    assert b2.(sites := b2.sites + b.sites) == b;
    assert WithLastBind(bs0, b) == pre + [b] by {
      assert bs0[..|bs0| - 1] == pre;
    }
    if b.ssl.Some? {
      RunSsl(ssl, bs0, b1, b.ssl.value);
    } else {
      assert b2 == b1;
    }
    RunSites(ssl, bs0, b2, b.sites);
    var p1 := Parser(BindContent, WithLastBind(bs0, b1));
    var p3 := Parser(BindContent, pre + [b]);
    RunChain(ssl, p1, RenderSsl(b.ssl), Parser(BindContent, WithLastBind(bs0, b2)), RenderSites(b.sites), p3);
    CloseBind(ssl, pre + [b]);
    RunChain(ssl, p1, RenderSsl(b.ssl) + RenderSites(b.sites), p3, ["}"], Parser(TopLevel, pre + [b]));
  }

  /** The closing brace of a bind returns to top level with the binds unchanged. */
  lemma CloseBind(ssl: bool, bs: seq<Bind>)
    requires Shaped(Parser(BindContent, bs))
    ensures Run(ssl, Parser(BindContent, bs), ["}"]) == Some(Parser(TopLevel, bs))
  {
    RunOne(ssl, Parser(BindContent, bs), "}", Parser(TopLevel, bs));
  }

  /** A printed bind is appended, as printed, to the binds read so far. */
  lemma RunBind(ssl: bool, pre: seq<Bind>, b: Bind)
    requires BindPrintable(b) && (b.ssl.Some? ==> ssl)
    ensures Run(ssl, Parser(TopLevel, pre), RenderBind(b)) == Some(Parser(TopLevel, pre + [b]))
  {
    RunBindOpen(ssl, pre, b);
    RunBindBody(ssl, pre, b);
    RunChain(ssl, Parser(TopLevel, pre), ["bind", b.addr + ":" + b.port, "{"],
      Parser(BindContent, WithLastBind(pre + [NewBind], Bind(b.addr, b.port, None, []))), BindBody(b),
      Parser(TopLevel, pre + [b]));
  }

  /** Binds are appended in order. */
  lemma {:induction false} RunBinds(ssl: bool, pre: seq<Bind>, bs: seq<Bind>)
    requires Printable(ssl, bs)
    ensures Run(ssl, Parser(TopLevel, pre), Render(bs)) == Some(Parser(TopLevel, pre + bs))
    decreases |bs|
  {
    if bs == [] {
      assert pre + bs == pre;
    } else {
      RunBind(ssl, pre, bs[0]);
      RunBinds(ssl, pre + [bs[0]], bs[1..]);
      SeqCons(pre, bs);
      RunChain(ssl, Parser(TopLevel, pre), RenderBind(bs[0]),
        Parser(TopLevel, pre + [bs[0]]), Render(bs[1..]), Parser(TopLevel, pre + bs));
    }
  }

  /**
   * The round trip: config_parse on a printed configuration rebuilds the
   * printed binds, sites, handlers, host names and index files, in order,
   * and accepts or rejects them exactly as the validation pass does.
   */
  lemma ParsePrinted(ssl: bool, bs: seq<Bind>)
    requires Printable(ssl, bs)
    ensures Parse(ssl, Print(bs)) == Validated(ssl, bs)
  {
    PrintedLexes(bs);
    RunBinds(ssl, [], bs);
    ParseOfTokens(ssl, Print(bs), Render(bs), bs);
  }

  /** The printed text lexes back to exactly the printed tokens. */
  lemma PrintedLexes(bs: seq<Bind>)
    requires forall i :: 0 <= i < |bs| ==> BindPrintable(bs[i])
    ensures Lex(Print(bs)) == Some(Lexed(Render(bs), []))
  {
    var ts := Render(bs);
    assert Values(ts);
    LexPrinted(ts);
  }

  /** An input that lexes to tokens whose run ends at top level with binds bs parses to what validation makes of bs. */
  lemma ParseOfTokens(ssl: bool, input: string, ts: seq<string>, bs: seq<Bind>)
    requires Lex(input) == Some(Lexed(ts, [])) && Run(ssl, Start, ts) == Some(Parser(TopLevel, [] + bs))
    ensures Parse(ssl, input) == Validated(ssl, bs)
  {
    assert [] + bs == bs;
  }

  /** Without SSL_SUPPORT the token "ssl" inside a bind is an error. */
  lemma SslTokenRejected(bs: seq<Bind>)
    requires Shaped(Parser(BindContent, bs))
    ensures Step(false, Parser(BindContent, bs), "ssl").None?
  {
    assert !Accepts(false, Parser(BindContent, bs), "ssl");
  }

  /** Without SSL support, a printed bind with an ssl block stops the run at its "ssl" token. */
  lemma RunSslBindRejected(pre: seq<Bind>, b: Bind)
    requires BindPrintable(b) && b.ssl.Some?
    ensures Run(false, Parser(TopLevel, pre), RenderBind(b)).None?
  {
    var p0 := Parser(TopLevel, pre);
    var p1 := Parser(BindContent, WithLastBind(pre + [NewBind], Bind(b.addr, b.port, None, [])));
    var a := ["bind", b.addr + ":" + b.port, "{"];
    RunBindOpen(false, pre, b);
    UpToNulWhole("ssl");
    SslTokenRejected(p1.binds);
    assert Run(false, p1, BindBody(b)).None?;
    RunAppend(false, p0, a, BindBody(b));
  }

  /** Without SSL support, the first printed bind with an ssl block stops the run. */
  lemma {:induction false} RunSslUnsupported(pre: seq<Bind>, bs: seq<Bind>)
    requires forall i :: 0 <= i < |bs| ==> BindPrintable(bs[i])
    requires exists i :: 0 <= i < |bs| && bs[i].ssl.Some?
    ensures Run(false, Parser(TopLevel, pre), Render(bs)).None?
    decreases |bs|
  {
    var b := bs[0];
    if b.ssl.Some? {
      RunSslBindRejected(pre, b);
      RunFailsOnPrefix(false, Parser(TopLevel, pre), RenderBind(b), Render(bs[1..]));
    } else {
      var k :| 0 <= k < |bs| && bs[k].ssl.Some?;
      assert bs[1..][k - 1] == bs[k];
      RunBind(false, pre, b);
      RunSslUnsupported(pre + [b], bs[1..]);
      RunAppend(false, Parser(TopLevel, pre), RenderBind(b), Render(bs[1..]));
    }
  }

  /** Built without SSL support, config_parse rejects any printed configuration that has an ssl block. */
  lemma SslNeedsSupport(bs: seq<Bind>)
    requires forall i :: 0 <= i < |bs| ==> BindPrintable(bs[i])
    requires exists i :: 0 <= i < |bs| && bs[i].ssl.Some?
    ensures Parse(false, Print(bs)) == None
  {
    var ts := Render(bs);
    assert Values(ts);
    LexPrinted(ts);
    RunSslUnsupported([], bs);
  }

  /** The handler of the sample configuration: files under "/" with the index file "index.html". */
  const SampleHandler := Handler("/", Some(FileHandler), ["index.html"], None)

  /** The site of the sample configuration: host example.com, document root "/". */
  const SampleSite := Site(["example.com"], Some("/"), [SampleHandler])

  /** The plain bind on port 80 and, with SSL support, the bind on port 443 with key and certificate files. */
  function SampleConfig(ssl: bool): seq<Bind> {
    [Bind("0.0.0.0", "80", None, [SampleSite])]
    + (if ssl then [Bind("0.0.0.0", "443", Some(Ssl(Some("ssl.key"), Some("ssl.crt"))), [SampleSite])] else [])
  }

  /** The sample site can be printed and read back. */
  lemma SampleSitePrintable()
    ensures SitePrintable(SampleSite)
  {
    assert Value("/") && Value("index.html") && Value("example.com");
    assert HandlerPrintable(SampleHandler);
  }

  /** The sample binds' addresses and ssl files can be printed and read back. */
  lemma SampleBindValues()
    ensures Value("0.0.0.0" + ":" + "80") && Value("0.0.0.0" + ":" + "443")
    ensures Value("ssl.key") && Value("ssl.crt")
  {
    assert "0.0.0.0" + ":" + "80" == "0.0.0.0:80";
    assert "0.0.0.0" + ":" + "443" == "0.0.0.0:443";
    assert Value("0.0.0.0:80") && Value("0.0.0.0:443");
  }

  /** The sample configuration can be printed and read back. */
  lemma SamplePrintable(ssl: bool)
    ensures Printable(ssl, SampleConfig(ssl))
  {
    SampleSitePrintable();
    SampleBindValues();
    var bs := SampleConfig(ssl);
    assert BindPrintable(bs[0]);
    if ssl {
      assert BindPrintable(bs[1]);
    }
  }

  /**
   * The configuration the server's own test expects: its binds, host name,
   * document root, handler type and index file come back as written, and
   * the handler receives the site's document root.
   */
  lemma SampleConfigParses(ssl: bool)
    ensures var r := Parse(ssl, Print(SampleConfig(ssl)));
      r.Some? && |r.value| == (if ssl then 2 else 1)
      && r.value[0].addr == "0.0.0.0" && r.value[0].port == "80" && r.value[0].ssl.None?
      && r.value[0].sites == [SampleSite.(handlers := [SampleHandler.(documentRoot := Some("/"))])]
      && (ssl ==> r.value[1].port == "443" && r.value[1].ssl == Some(Ssl(Some("ssl.key"), Some("ssl.crt")))
                  && r.value[1].sites == r.value[0].sites)
  {
    var bs := SampleConfig(ssl);
    SamplePrintable(ssl);
    ParsePrinted(ssl, bs);
    assert ResolveSite(SampleSite).handlers == [SampleHandler.(documentRoot := Some("/"))];
    assert ResolveBind(bs[0]).sites == [ResolveSite(SampleSite)];
    if ssl {
      assert ResolveBind(bs[1]).sites == [ResolveSite(SampleSite)];
    }
  }
}
